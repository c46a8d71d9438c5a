/**
 * The per-device library's session object (`G19Device` in
 * libg19/libg19.h and its functions in libg19/libg19.c): opening and
 * closing a keyboard, the three interrupt channels that are resubmitted
 * from their completion callbacks, the LCD and control requests, and the
 * poll-descriptor copy. Calls into libusb are replaced by their results;
 * everything the device is sent, and every key word handed to the user's
 * callback, is recorded in `events`.
 */
module Session {
  import opened Wrappers
  import opened G19
  import opened Usb
  import opened Keys
  import opened Frame
  import opened Control
  import opened Selection

  /** The three interrupt transfers of a session. */
  datatype Channel = LKeyChannel | GKeyChannel | GKeyControlChannel

  /** The endpoint and buffer length each channel is filled with. */
  function ChannelEndpoint(ch: Channel): bv8
  {
    match ch
    case LKeyChannel => 0x81
    case GKeyChannel => 0x83
    case GKeyControlChannel => 0x83
  }

  function ChannelLength(ch: Channel): nat
  {
    match ch
    case LKeyChannel => 2
    case GKeyChannel => 4
    case GKeyControlChannel => 7
  }

  /** The key words are loaded from exactly as many bytes as the channel
      carries. */
  lemma ChannelWords(buf: seq<bv8>)
    requires |buf| >= 4
    ensures GKeyWord(buf) == LoadLE(buf, ChannelLength(GKeyChannel))
    ensures LKeyWord(buf) == LoadLE(buf, ChannelLength(LKeyChannel))
  {
  }

  datatype Event = Submitted(ch: Channel) | Delivered(keys: bv32) | Sent(t: Transfer)

  /** How often channel `ch` has been submitted. */
  function Submissions(events: seq<Event>, ch: Channel): nat
  {
    if events == [] then 0
    else Submissions(events[..|events| - 1], ch) + (if events[|events| - 1] == Submitted(ch) then 1 else 0)
  }

  lemma {:induction false} SubmissionsAppend(s: seq<Event>, t: seq<Event>, ch: Channel)
    ensures Submissions(s + t, ch) == Submissions(s, ch) + Submissions(t, ch)
    decreases |t|
  {
    if t == [] {
      assert s + t == s;
    } else {
      assert (s + t)[..|s + t| - 1] == s + t[..|t| - 1];
      SubmissionsAppend(s, t[..|t| - 1], ch);
    }
  }

  /** What a completion callback appends: its resubmissions, then at most
      one delivered key word, which submits nothing. */
  lemma CompletionCounts(events: seq<Event>, resubmitted: seq<Event>, delivered: seq<Event>)
    requires |delivered| <= 1 && (delivered != [] ==> delivered[0].Delivered?)
    ensures forall ch :: Submissions(events + resubmitted + delivered, ch) == Submissions(events, ch) + Submissions(resubmitted, ch)
  {
    forall ch
      ensures Submissions(events + resubmitted + delivered, ch) == Submissions(events, ch) + Submissions(resubmitted, ch)
    {
      SubmissionsAppend(events, resubmitted, ch);
      SubmissionsAppend(events + resubmitted, delivered, ch);
      if delivered != [] {
        assert delivered[..0] == [];
      }
    }
  }

  /** The G-key callback's resubmissions count once on the control and
      once on the key channel. */
  lemma ResubmittedCounts()
    ensures Submissions([Submitted(GKeyControlChannel), Submitted(GKeyChannel)], GKeyChannel) == 1
    ensures Submissions([Submitted(GKeyControlChannel), Submitted(GKeyChannel)], GKeyControlChannel) == 1
    ensures Submissions([Submitted(GKeyControlChannel), Submitted(GKeyChannel)], LKeyChannel) == 0
  {
    assert [Submitted(GKeyControlChannel), Submitted(GKeyChannel)][..1] == [Submitted(GKeyControlChannel)];
  }

  /** The user's callback (NULL as None) is identified by a number. */
  type Callback = nat

  class G19Device {
    /** libusb context initialised */
    var ctx: bool
    /** the list position whose handle was opened */
    var hndl: Option<nat>
    /** transfers allocated */
    var lktrn: bool
    var gktrn: bool
    var gkctrn: bool
    /** the G/M/L-key callback */
    var keys: Option<Callback>
    var events: seq<Event>
    ghost var gkCompletions: nat
    ghost var lkCompletions: nat

    /** A live session: every channel exists, and each key channel is
        resubmitted once per completion on top of the submission at open,
        while the control channel is submitted once per G-key completion. */
    ghost predicate Valid()
      reads this
    {
      ctx && hndl.Some? && lktrn && gktrn && gkctrn
      && Submissions(events, GKeyChannel) == gkCompletions + 1
      && Submissions(events, GKeyControlChannel) == gkCompletions
      && Submissions(events, LKeyChannel) == lkCompletions + 1
    }

    /** `calloc` and `memset`: every field zero. */
    constructor ()
      ensures !ctx && hndl == None && !lktrn && !gktrn && !gkctrn && keys == None
      ensures events == [] && gkCompletions == 0 && lkCompletions == 0
    {
      ctx, hndl := false, None;
      lktrn, gktrn, gkctrn := false, false, false;
      keys, events := None, [];
      gkCompletions, lkCompletions := 0, 0;
    }

    /** `g19_device_gkey_cb`: the key word is the four buffer bytes loaded
        little-endian; the control and key transfers are resubmitted, in
        that order, and the word goes to the callback if one is set. */
    method GKeyCompleted(buffer: seq<bv8>)
      requires Valid() && |buffer| >= 4
      modifies this
      ensures Valid()
      ensures gkCompletions == old(gkCompletions) + 1 && lkCompletions == old(lkCompletions)
      ensures events == old(events) + [Submitted(GKeyControlChannel), Submitted(GKeyChannel)]
                        + (if keys.Some? then [Delivered(GKeyWord(buffer))] else [])
      ensures ctx == old(ctx) && hndl == old(hndl) && keys == old(keys)
      ensures lktrn == old(lktrn) && gktrn == old(gktrn) && gkctrn == old(gkctrn)
    {
      var word := GKeyWord(buffer);
      ghost var delivered := if keys.Some? then [Delivered(word)] else [];
      CompletionCounts(events, [Submitted(GKeyControlChannel), Submitted(GKeyChannel)], delivered);
      ResubmittedCounts();
      events := events + [Submitted(GKeyControlChannel), Submitted(GKeyChannel)];
      gkCompletions := gkCompletions + 1;
      if keys.Some? {
        events := events + [Delivered(word)];
      }
      assert events == old(events) + [Submitted(GKeyControlChannel), Submitted(GKeyChannel)] + delivered;
    }

    /** `g19_device_lkey_cb`: two bytes loaded into a zeroed word, one
        resubmission of the L-key transfer, then the callback if set. */
    method LKeyCompleted(buffer: seq<bv8>)
      requires Valid() && |buffer| >= 2
      modifies this
      ensures Valid()
      ensures lkCompletions == old(lkCompletions) + 1 && gkCompletions == old(gkCompletions)
      ensures events == old(events) + [Submitted(LKeyChannel)]
                        + (if keys.Some? then [Delivered(LKeyWord(buffer))] else [])
      ensures ctx == old(ctx) && hndl == old(hndl) && keys == old(keys)
      ensures lktrn == old(lktrn) && gktrn == old(gktrn) && gkctrn == old(gkctrn)
    {
      var word := LKeyWord(buffer);
      ghost var delivered := if keys.Some? then [Delivered(word)] else [];
      CompletionCounts(events, [Submitted(LKeyChannel)], delivered);
      events := events + [Submitted(LKeyChannel)];
      lkCompletions := lkCompletions + 1;
      if keys.Some? {
        events := events + [Delivered(word)];
      }
      assert events == old(events) + [Submitted(LKeyChannel)] + delivered;
    }
  }

  /** The unsigned comparison of line 167: `devc` is a `size_t`, so the
      negative error code of the device list wraps to a huge value. */
  predicate ListCheckAsWritten(code: int)
  {
    code % 0x1_0000_0000_0000_0000 < Success
  }

  /** The intended test: a negative count is an error. */
  predicate ListCheck(code: int)
  {
    code < Success
  }

  /** The error `g19_device_open` reports with only the comparison
      corrected: the error label writes `res`, and the list code is kept
      in `devc`, never in `res`, which still holds libusb_init's result. */
  function OpenErrorAsWritten(index: nat, initResult: int, list: DeviceList, lkSubmit: int, gkSubmit: int): int
  {
    if initResult != Success then initResult
    else if list.ListFailed? && ListCheck(list.code) then initResult
    else OpenError(index, initResult, list, lkSubmit, gkSubmit)
  }

  /** As written, no list failure is ever detected; the intended test
      detects every one. Even with that test, the written error label
      reports LIBUSB_SUCCESS for a failed list while returning NULL; the
      corrected open reports the list code. */
  lemma ListFailureMissed(code: int, index: nat, lkSubmit: int, gkSubmit: int)
    requires code < 0
    ensures !ListCheckAsWritten(code)
    ensures ListCheck(code)
    ensures OpenErrorAsWritten(index, Success, ListFailed(code), lkSubmit, gkSubmit) == Success
    ensures OpenError(index, Success, ListFailed(code), lkSubmit, gkSubmit) == code
  {
  }

  /** The devices the open hands to `g19_device_init`. */
  function ListedDevs(list: DeviceList): seq<DeviceEntry>
  {
    if list.Listed? then list.devs else []
  }

  /** Whether the open gets past libusb_init and the (corrected) list
      check. */
  predicate PastList(initResult: int, list: DeviceList)
  {
    initResult == Success && !(list.ListFailed? && ListCheck(list.code))
  }

  /** The error `g19_device_open` reports, with the list check corrected
      (Success when it returns a device). */
  function OpenError(index: nat, initResult: int, list: DeviceList, lkSubmit: int, gkSubmit: int): int
  {
    if initResult != Success then initResult
    else if list.ListFailed? && ListCheck(list.code) then list.code
    else
      var devs := if list.Listed? then list.devs else [];
      var init := InitOutcome(devs, index).0;
      if init != Success then init
      else if lkSubmit != Success then lkSubmit
      else gkSubmit
  }

  /**
   * `g19_device_open`: a zeroed session, libusb_init, the device list,
   * `g19_device_init`, three transfers, then the L-key and G-key transfers
   * submitted (never the control transfer). Any failure closes the
   * session and returns NULL with the failing code in `error`; `freed`,
   * `closedHandle` and `exited` are what that close released.
   */
  method Open(index: nat, initResult: int, list: DeviceList, lkSubmit: int, gkSubmit: int)
    returns (dev: G19Device?, error: int, freed: set<Channel>, closedHandle: bool, exited: bool)
    ensures error == OpenError(index, initResult, list, lkSubmit, gkSubmit)
    ensures dev == null <==> error != Success
    ensures dev != null ==> fresh(dev) && dev.Valid()
    ensures dev != null ==> dev.gkCompletions == 0 && dev.lkCompletions == 0 && dev.keys == None
    ensures dev != null ==> dev.events == [Submitted(LKeyChannel), Submitted(GKeyChannel)]
    ensures dev != null ==> dev.hndl == InitOutcome(list.devs, index).1
    ensures dev != null ==> freed == {} && !closedHandle && !exited
    ensures dev == null ==> exited == (initResult == Success)
    ensures dev == null ==>
      closedHandle == (PastList(initResult, list) && InitOutcome(ListedDevs(list), index).1.Some?)
    ensures dev == null ==>
      freed == if PastList(initResult, list) && InitOutcome(ListedDevs(list), index).0 == Success
               then {LKeyChannel, GKeyChannel, GKeyControlChannel} else {}
  {
    freed, closedHandle, exited := {}, false, false;
    var d := new G19Device();
    if initResult != Success {
      error := initResult;
      freed, closedHandle, exited := Close(d);
      return null, error, freed, closedHandle, exited;
    }
    d.ctx := true;
    if list.ListFailed? && ListCheck(list.code) {
      error := list.code;
      freed, closedHandle, exited := Close(d);
      return null, error, freed, closedHandle, exited;
    }
    var devs := ListedDevs(list);
    var res, hndl, _ := DeviceInit(devs, index);
    d.hndl := hndl;
    if res != Success {
      error := res;
      freed, closedHandle, exited := Close(d);
      return null, error, freed, closedHandle, exited;
    }
    InitSuccessHasHandle(devs, index);
    error := StartTransfers(d, lkSubmit, gkSubmit);
    if error != Success {
      freed, closedHandle, exited := Close(d);
      return null, error, freed, closedHandle, exited;
    }
    return d, Success, freed, closedHandle, exited;
  }

  /** The second half of `g19_device_open`: the three transfers are
      allocated and filled, then the L-key and the G-key transfers are
      submitted, stopping at the first failure. */
  method StartTransfers(d: G19Device, lkSubmit: int, gkSubmit: int) returns (error: int)
    requires d.ctx && d.hndl.Some? && d.keys == None
    requires d.events == [] && d.gkCompletions == 0 && d.lkCompletions == 0
    modifies d
    ensures error == if lkSubmit != Success then lkSubmit else gkSubmit
    ensures d.ctx && d.hndl == old(d.hndl) && d.keys == None && d.gkCompletions == 0 && d.lkCompletions == 0
    ensures d.lktrn && d.gktrn && d.gkctrn
    ensures d.events == [Submitted(LKeyChannel)] + (if lkSubmit == Success then [Submitted(GKeyChannel)] else [])
    ensures error == Success ==> d.Valid()
  {
    d.lktrn, d.gktrn, d.gkctrn := true, true, true;
    d.events := d.events + [Submitted(LKeyChannel)];
    if lkSubmit != Success {
      return lkSubmit;
    }
    d.events := d.events + [Submitted(GKeyChannel)];
    if gkSubmit != Success {
      return gkSubmit;
    }
    OpenedSubmissions();
    return Success;
  }

  /** After open: one L-key and one G-key submission, no control one. */
  lemma OpenedSubmissions()
    ensures Submissions([Submitted(LKeyChannel), Submitted(GKeyChannel)], LKeyChannel) == 1
    ensures Submissions([Submitted(LKeyChannel), Submitted(GKeyChannel)], GKeyChannel) == 1
    ensures Submissions([Submitted(LKeyChannel), Submitted(GKeyChannel)], GKeyControlChannel) == 0
  {
    var ev := [Submitted(LKeyChannel), Submitted(GKeyChannel)];
    assert ev[..1] == [Submitted(LKeyChannel)];
    assert ev[..1][..0] == [];
  }

  /** The transfers a session holds. */
  function Allocated(lk: bool, gk: bool, gkc: bool): set<Channel>
  {
    (if lk then {LKeyChannel} else {}) + (if gk then {GKeyChannel} else {})
    + (if gkc then {GKeyControlChannel} else {})
  }

  /**
   * `g19_device_close` as written: each transfer is freed only when its
   * pointer is NULL, and `libusb_free_transfer(NULL)` frees nothing, so no
   * allocated transfer is ever released. The handle is closed and the
   * context exited when present; NULL is a no-op.
   */
  method CloseAsWritten(dev: G19Device?) returns (freed: set<Channel>, closedHandle: bool, exited: bool)
    ensures dev == null ==> freed == {} && !closedHandle && !exited
    ensures dev != null ==> closedHandle == dev.hndl.Some? && exited == dev.ctx
    ensures freed == {}
    ensures dev != null ==> Allocated(dev.lktrn, dev.gktrn, dev.gkctrn) - freed == Allocated(dev.lktrn, dev.gktrn, dev.gkctrn)
  {
    freed, closedHandle, exited := {}, false, false;
    if dev == null {
      return;
    }
    if !dev.gkctrn && dev.gkctrn {
      freed := freed + {GKeyControlChannel};
    }
    if !dev.gktrn && dev.gktrn {
      freed := freed + {GKeyChannel};
    }
    if !dev.lktrn && dev.lktrn {
      freed := freed + {LKeyChannel};
    }
    closedHandle := dev.hndl.Some?;
    exited := dev.ctx;
  }

  /** A live session holds all three transfers, so what the as-written
      close leaves allocated (`Allocated(...) - freed`, with `freed == {}`)
      is every transfer of the session. */
  lemma CloseLeaksLiveSession(dev: G19Device)
    requires dev.Valid()
    ensures Allocated(dev.lktrn, dev.gktrn, dev.gkctrn) == {LKeyChannel, GKeyChannel, GKeyControlChannel}
  {
  }

  /** `g19_device_close` with the guards corrected to `!= NULL`: frees
      every allocated transfer, closes the handle and exits the context. */
  method Close(dev: G19Device?) returns (freed: set<Channel>, closedHandle: bool, exited: bool)
    ensures dev == null ==> freed == {} && !closedHandle && !exited
    ensures dev != null ==> freed == Allocated(dev.lktrn, dev.gktrn, dev.gkctrn)
    ensures dev != null ==> closedHandle == dev.hndl.Some? && exited == dev.ctx
  {
    freed, closedHandle, exited := {}, false, false;
    if dev == null {
      return;
    }
    if dev.gkctrn {
      freed := freed + {GKeyControlChannel};
    }
    if dev.gktrn {
      freed := freed + {GKeyChannel};
    }
    if dev.lktrn {
      freed := freed + {LKeyChannel};
    }
    closedHandle := dev.hndl.Some?;
    exited := dev.ctx;
  }

  /** The frame `g19_device_lcd` submits: converted unless the type has
      the RAW bit, with the pixel loop bounded by G19_BMP_DSIZE. */
  function LcdFrame(hdr: Header, data: seq<bv8>, size: nat, updateType: bv32): seq<bv8>
    requires FrameReadable(|data|, size, IsConverted(updateType), BmpDataSize)
  {
    EncodedFrame(hdr, data, size, IsConverted(updateType), BmpDataSize)
  }

  /**
   * `g19_device_lcd`: a NULL session or buffer is rejected with
   * LIBUSB_ERROR_INVALID_PARAM and nothing is sent (`size` is unsigned, so
   * its `< 0` test never fires); otherwise the frame goes to bulk endpoint
   * 0x02 and the submit result is returned.
   */
  method Lcd(hdr: Header, dev: G19Device?, data: Option<seq<bv8>>, size: nat, updateType: bv32, submitResult: int)
    returns (res: int)
    requires data.Some? ==> FrameReadable(|data.value|, size, IsConverted(updateType), BmpDataSize)
    modifies dev
    ensures dev == null || data.None? ==> res == ErrorInvalidParam
    ensures dev != null && data.None? ==> dev.events == old(dev.events)
    ensures dev != null && data.Some? ==>
      res == submitResult
      && dev.events == old(dev.events) + [Sent(BulkOut(0x02, LcdFrame(hdr, data.value, size, updateType)))]
    ensures dev != null ==> dev.gkCompletions == old(dev.gkCompletions) && dev.lkCompletions == old(dev.lkCompletions)
    ensures dev != null ==> SessionFieldsUnchanged(dev)
  {
    if dev == null || data.None? {
      return ErrorInvalidParam;
    }
    var bits := EncodeFrame(hdr, data.value, size, IsConverted(updateType), BmpDataSize);
    SentKeepsSubmissions(dev.events, Sent(BulkOut(0x02, bits[..])));
    dev.events := dev.events + [Sent(BulkOut(0x02, bits[..]))];
    return submitResult;
  }

  /** Appending a transfer to the device log changes no channel count. */
  lemma SentKeepsSubmissions(events: seq<Event>, e: Event)
    requires e.Sent?
    ensures forall ch :: Submissions(events + [e], ch) == Submissions(events, ch)
  {
    forall ch {
      SubmissionsAppend(events, [e], ch);
    }
  }

  twostate predicate SessionFieldsUnchanged(dev: G19Device)
    reads dev
  {
    dev.ctx == old(dev.ctx) && dev.hndl == old(dev.hndl) && dev.keys == old(dev.keys)
    && dev.lktrn == old(dev.lktrn) && dev.gktrn == old(dev.gktrn) && dev.gkctrn == old(dev.gkctrn)
  }

  /** Sends one control buffer, or rejects a NULL session. */
  method SendControl(dev: G19Device?, packet: seq<bv8>, submitResult: int) returns (res: int)
    modifies dev
    ensures dev == null ==> res == ErrorInvalidParam
    ensures dev != null ==> res == submitResult && dev.events == old(dev.events) + [Sent(ControlOut(packet))]
    ensures dev != null ==> dev.gkCompletions == old(dev.gkCompletions) && dev.lkCompletions == old(dev.lkCompletions)
    ensures dev != null ==> SessionFieldsUnchanged(dev)
  {
    if dev == null {
      return ErrorInvalidParam;
    }
    SentKeepsSubmissions(dev.events, Sent(ControlOut(packet)));
    dev.events := dev.events + [Sent(ControlOut(packet))];
    return submitResult;
  }

  /** `g19_device_brightness`. */
  method Brightness(dev: G19Device?, level: bv8, submitResult: int) returns (res: int)
    modifies dev
    ensures dev == null ==> res == ErrorInvalidParam
    ensures dev != null ==> res == submitResult && dev.events == old(dev.events) + [Sent(ControlOut(BrightnessPacket(level)))]
    ensures dev != null ==> dev.gkCompletions == old(dev.gkCompletions) && dev.lkCompletions == old(dev.lkCompletions)
    ensures dev != null ==> SessionFieldsUnchanged(dev)
  {
    res := SendControl(dev, BrightnessPacket(level), submitResult);
  }

  /** `g19_device_backlight`. */
  method Backlight(dev: G19Device?, r: bv8, g: bv8, b: bv8, submitResult: int) returns (res: int)
    modifies dev
    ensures dev == null ==> res == ErrorInvalidParam
    ensures dev != null ==> res == submitResult && dev.events == old(dev.events) + [Sent(ControlOut(BacklightPacket(r, g, b)))]
    ensures dev != null ==> dev.gkCompletions == old(dev.gkCompletions) && dev.lkCompletions == old(dev.lkCompletions)
    ensures dev != null ==> SessionFieldsUnchanged(dev)
  {
    res := SendControl(dev, BacklightPacket(r, g, b), submitResult);
  }

  /** `g19_device_mkeys`. */
  method MKeys(dev: G19Device?, keys: bv32, submitResult: int) returns (res: int)
    modifies dev
    ensures dev == null ==> res == ErrorInvalidParam
    ensures dev != null ==> res == submitResult && dev.events == old(dev.events) + [Sent(ControlOut(MKeysPacket(MLedByte(keys))))]
    ensures dev != null ==> dev.gkCompletions == old(dev.gkCompletions) && dev.lkCompletions == old(dev.lkCompletions)
    ensures dev != null ==> SessionFieldsUnchanged(dev)
  {
    res := SendControl(dev, MKeysPacket(MLedByte(keys)), submitResult);
  }

  /** A `G19PollFD` / `libusb_pollfd`: descriptor and event flags. */
  datatype PollFd = PollFd(fd: int, events: int)

  /** The position of the NULL that ends a libusb poll list. */
  function FirstNull(fds: seq<Option<PollFd>>): (n: nat)
    requires None in fds
    ensures n < |fds| && fds[n] == None && forall j :: 0 <= j < n ==> fds[j].Some?
  {
    if fds[0] == None then 0 else FirstNull(fds[1..]) + 1
  }

  /**
   * `g19_device_pollfds`: NULL for a NULL session or poll list; otherwise
   * a fresh array of `n + 1` entries holding the `n` descriptors before
   * the list's NULL and one zeroed terminator, with `n` in `size` when the
   * caller asked for it.
   */
  method PollFds(dev: G19Device?, fds: Option<seq<Option<PollFd>>>, wantSize: bool)
    returns (ret: array?<PollFd>, size: Option<nat>)
    requires fds.Some? ==> None in fds.value
    ensures dev == null || fds.None? ==> ret == null && size == None
    ensures dev != null && fds.Some? ==>
      var n := FirstNull(fds.value);
      ret != null && fresh(ret) && ret.Length == n + 1 && ret[n] == PollFd(0, 0)
      && (forall j :: 0 <= j < n ==> Some(ret[j]) == fds.value[j])
      && size == (if wantSize then Some(n) else None)
  {
    if dev == null || fds.None? {
      return null, None;
    }
    var list := fds.value;
    var n := FirstNull(list);
    var i := 0;
    while list[i] != None
      invariant i <= n
      decreases n - i
    {
      i := i + 1;
    }
    ret := new PollFd[i + 1](_ => PollFd(0, 0));
    i := 0;
    while list[i] != None
      invariant i <= n && ret.Length == n + 1 && ret[n] == PollFd(0, 0)
      invariant forall j :: 0 <= j < i ==> Some(ret[j]) == list[j]
      decreases n - i
    {
      ret[i] := list[i].value;
      i := i + 1;
    }
    size := if wantSize then Some(i) else None;
  }

  /** `g19_device_pollto`: the NULL guard in front of libusb's timeout. */
  method PollTo(dev: G19Device?, hasTimeval: bool, nextTimeout: int) returns (res: int)
    ensures dev == null || !hasTimeval ==> res == ErrorInvalidParam
    ensures dev != null && hasTimeval ==> res == nextTimeout
  {
    if dev == null || !hasTimeval {
      return ErrorInvalidParam;
    }
    return nextTimeout;
  }

  /** `g19_device_pollev`: the NULL guard in front of libusb's event handling. */
  method PollEv(dev: G19Device?, handled: int) returns (res: int)
    ensures dev == null ==> res == ErrorInvalidParam
    ensures dev != null ==> res == handled
  {
    if dev == null {
      return ErrorInvalidParam;
    }
    return handled;
  }
}
