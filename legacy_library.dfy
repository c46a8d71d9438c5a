/**
 * The old library (libg19.c): one keyboard kept in file-level globals,
 * set up by `g19_init`, listened to through `g19_set_gkeys_cb` and
 * `g19_set_lkeys_cb`, and driven by `g19_update_lcd`,
 * `g19_set_backlight` and `g19_set_mkey_led`. The globals are the fields
 * of `G19Library`.
 */
module LegacyLibrary {
  import opened Wrappers
  import opened G19
  import opened Usb
  import opened Keys
  import opened Frame
  import opened Control
  import opened Selection
  import opened Session

  /** The two `flags` bits of `g19_update_lcd` (G19_PREPEND_HDATA and
      G19_DATA_TYPE_BMP), as booleans. */
  datatype LcdFlags = LcdFlags(prepend: bool, bmp: bool)

  /** What `g19_update_lcd`'s buffer must provide for the chosen mode. */
  predicate LegacyReadable(dataLen: nat, size: nat, flags: LcdFlags)
  {
    if flags.prepend || flags.bmp then FrameReadable(dataLen, size, flags.bmp, BmpSize)
    else size <= dataLen
  }

  /**
   * The bytes `g19_update_lcd` hands to bulk endpoint 0x02: nothing for
   * size 0; with either flag a G19_BMP_SIZE frame (converted when BMP is
   * set, pixel loop bounded by the frame size); with neither flag the
   * caller's first `size` bytes unchanged.
   */
  function LegacyPayload(hdr: Header, data: seq<bv8>, size: nat, flags: LcdFlags): Option<seq<bv8>>
    requires LegacyReadable(|data|, size, flags)
  {
    if size < 1 then None
    else if flags.prepend || flags.bmp then Some(EncodedFrame(hdr, data, size, flags.bmp, BmpSize))
    else Some(data[..size])
  }

  /** With a flag set the payload is a full frame behind the header; with
      none it is the caller's buffer of length `size`. */
  lemma LegacyPayloadShape(hdr: Header, data: seq<bv8>, size: nat, flags: LcdFlags)
    requires LegacyReadable(|data|, size, flags) && size >= 1
    ensures var p := LegacyPayload(hdr, data, size, flags).value;
      if flags.prepend || flags.bmp then |p| == BmpSize && p[..DataHeaderSize] == hdr
      else p == data[..size] && |p| == size
  {
  }

  /** PREPEND without BMP copies `min(size, bsize - 512)` bytes: the
      caller's data is silently truncated and the tail stays zero. */
  lemma LegacyPrependTruncates(hdr: Header, data: seq<bv8>, size: nat)
    requires LegacyReadable(|data|, size, LcdFlags(true, false)) && size >= 1
    ensures var p := LegacyPayload(hdr, data, size, LcdFlags(true, false)).value;
      PixelRegion(p)[..Min(size, BmpDataSize)] == data[..Min(size, BmpDataSize)]
      && forall i :: Min(size, BmpDataSize) <= i < BmpDataSize ==> PixelRegion(p)[i] == 0
  {
    RawLayout(hdr, data, Min(size, BmpDataSize));
  }

  class G19Library {
    var usbCtx: bool
    var devh: Option<nat>
    var devc: int
    var dlist: seq<DeviceEntry>
    var gkeysTransfer: bool
    var gkeyscTransfer: bool
    var lkeysTransfer: bool
    var gkeysCb: Option<Callback>
    var lkeysCb: Option<Callback>
    var events: seq<Event>
    ghost var gkArmed: nat
    ghost var lkArmed: nat
    ghost var gkCompletions: nat
    ghost var lkCompletions: nat

    /** Every in-flight key transfer was submitted by a callback setter or
        by the completion of the previous one; the control transfer is
        submitted once per G-key completion. */
    ghost predicate Valid()
      reads this
    {
      Submissions(events, GKeyChannel) == gkArmed + gkCompletions
      && Submissions(events, GKeyControlChannel) == gkCompletions
      && Submissions(events, LKeyChannel) == lkArmed + lkCompletions
      && (gkArmed > 0 ==> gkeysTransfer && gkeyscTransfer && devh.Some?)
      && (lkArmed > 0 ==> lkeysTransfer && devh.Some?)
      && (devh.Some? ==> usbCtx)
    }

    /** The globals before `g19_init`: all zero. */
    constructor ()
      ensures !usbCtx && devh == None && devc == 0 && dlist == []
      ensures !gkeysTransfer && !gkeyscTransfer && !lkeysTransfer
      ensures gkeysCb == None && lkeysCb == None && events == []
      ensures gkArmed == 0 && lkArmed == 0 && gkCompletions == 0 && lkCompletions == 0
      ensures Valid()
    {
      usbCtx, devh, devc, dlist := false, None, 0, [];
      gkeysTransfer, gkeyscTransfer, lkeysTransfer := false, false, false;
      gkeysCb, lkeysCb, events := None, None, [];
      gkArmed, lkArmed, gkCompletions, lkCompletions := 0, 0, 0, 0;
    }

    /**
     * `g19_init`: refuses with -1 when already initialised; returns a
     * libusb_init failure unchanged; -1 when the device list is empty or
     * failed; otherwise runs `g19_device_proc` over the table of supported
     * devices until one is set up, and returns 0 whether or not one was.
     */
    method Init(initResult: int, list: DeviceList) returns (res: int)
      requires Valid()
      modifies this
      ensures Valid()
      ensures old(usbCtx) ==> res == -1 && LibraryUnchanged()
      ensures !old(usbCtx) && initResult != Success ==> res == initResult && !usbCtx && devh == old(devh) && ListUnchanged()
      ensures !old(usbCtx) && initResult == Success ==> usbCtx
      ensures !old(usbCtx) && initResult == Success && list.ListFailed? ==> devc == list.code && dlist == old(dlist)
      ensures !old(usbCtx) && initResult == Success && list.Listed? ==> devc == |list.devs| && dlist == list.devs
      ensures !old(usbCtx) && initResult == Success && (list.ListFailed? || list == Listed([])) ==>
        res == -1 && devh == old(devh)
      ensures !old(usbCtx) && initResult == Success && list.Listed? && list.devs != [] ==>
        res == 0 && devh == ProcSelect(list.devs, G19Supported, 0)
      ensures events == old(events) && gkArmed == old(gkArmed) && lkArmed == old(lkArmed)
      ensures gkeysTransfer == old(gkeysTransfer) && gkeyscTransfer == old(gkeyscTransfer) && lkeysTransfer == old(lkeysTransfer)
      ensures gkeysCb == old(gkeysCb) && lkeysCb == old(lkeysCb)
      ensures gkCompletions == old(gkCompletions) && lkCompletions == old(lkCompletions)
    {
      if usbCtx {
        return -1;
      }
      if initResult != Success {
        return initResult;
      }
      usbCtx := true;
      if list.ListFailed? {
        devc := list.code;
      } else {
        devc, dlist := |list.devs|, list.devs;
      }
      if devc < 1 {
        return -1;
      }
      var i := 0;
      while i < |SupportedDevices|
        invariant 0 <= i <= |SupportedDevices|
        invariant i > 0 ==> devh == ProcSelect(dlist, G19Supported, 0)
        invariant usbCtx && events == old(events) && gkArmed == old(gkArmed) && lkArmed == old(lkArmed)
        invariant gkeysTransfer == old(gkeysTransfer) && gkeyscTransfer == old(gkeyscTransfer) && lkeysTransfer == old(lkeysTransfer)
        invariant gkeysCb == old(gkeysCb) && lkeysCb == old(lkeysCb)
        invariant gkCompletions == old(gkCompletions) && lkCompletions == old(lkCompletions)
        invariant list.Listed? ==> devc == |list.devs| && dlist == list.devs
      {
        var r, h, _ := DeviceProc(dlist, SupportedDevices[i]);
        devh := h;
        if r == Success {
          ProcNoneClearsHandle(dlist, SupportedDevices[i], r, h);
          break;
        }
        ProcNoneClearsHandle(dlist, SupportedDevices[i], r, h);
        i := i + 1;
      }
      return 0;
    }

    /** `g19_set_gkeys_cb`: nothing without a device; otherwise stores the
        callback, allocates the key and control transfers and submits the
        key transfer. */
    method SetGKeysCb(cb: Option<Callback>)
      requires Valid()
      modifies this
      ensures Valid()
      ensures old(devh) == None ==> events == old(events) && LibraryUnchanged()
      ensures old(devh) != None ==>
        gkeysCb == cb && gkeysTransfer && gkeyscTransfer && gkArmed == old(gkArmed) + 1
        && events == old(events) + [Submitted(GKeyChannel)]
      ensures devh == old(devh) && usbCtx == old(usbCtx) && lkeysCb == old(lkeysCb) && lkeysTransfer == old(lkeysTransfer)
      ensures lkArmed == old(lkArmed) && gkCompletions == old(gkCompletions) && lkCompletions == old(lkCompletions)
      ensures ListUnchanged()
    {
      if devh != None {
        gkeysCb := cb;
        gkeysTransfer := true;
        gkeyscTransfer := true;
        RecordOne(events, Submitted(GKeyChannel));
        events := events + [Submitted(GKeyChannel)];
        gkArmed := gkArmed + 1;
      }
    }

    /** `g19_set_lkeys_cb`: the same for the L-key transfer. */
    method SetLKeysCb(cb: Option<Callback>)
      requires Valid()
      modifies this
      ensures Valid()
      ensures old(devh) == None ==> events == old(events) && LibraryUnchanged()
      ensures old(devh) != None ==>
        lkeysCb == cb && lkeysTransfer && lkArmed == old(lkArmed) + 1
        && events == old(events) + [Submitted(LKeyChannel)]
      ensures devh == old(devh) && usbCtx == old(usbCtx) && gkeysCb == old(gkeysCb) && gkeysTransfer == old(gkeysTransfer)
      ensures gkeyscTransfer == old(gkeyscTransfer)
      ensures gkArmed == old(gkArmed) && gkCompletions == old(gkCompletions) && lkCompletions == old(lkCompletions)
      ensures ListUnchanged()
    {
      if devh != None {
        lkeysCb := cb;
        lkeysTransfer := true;
        RecordOne(events, Submitted(LKeyChannel));
        events := events + [Submitted(LKeyChannel)];
        lkArmed := lkArmed + 1;
      }
    }

    /** `g19_gkey_cb`: decodes the buffer bit by bit, calls the callback
        (unconditionally, so it must be set), then resubmits the control
        transfer and the key transfer. */
    method GKeyCompleted(buffer: seq<bv8>)
      requires Valid() && gkArmed > 0 && gkeysCb.Some? && |buffer| >= 3
      modifies this
      ensures Valid()
      ensures events == old(events) + [Delivered(LegacyGKeys(buffer)), Submitted(GKeyControlChannel), Submitted(GKeyChannel)]
      ensures gkCompletions == old(gkCompletions) + 1 && lkCompletions == old(lkCompletions)
      ensures gkArmed == old(gkArmed) && lkArmed == old(lkArmed) && devh == old(devh)
      ensures gkeysCb == old(gkeysCb) && lkeysCb == old(lkeysCb) && usbCtx == old(usbCtx)
      ensures gkeysTransfer == old(gkeysTransfer) && gkeyscTransfer == old(gkeyscTransfer) && lkeysTransfer == old(lkeysTransfer)
      ensures ListUnchanged()
    {
      var keys := LegacyGKeys(buffer);
      RecordOne(events, Delivered(keys));
      events := events + [Delivered(keys)];
      RecordOne(events, Submitted(GKeyControlChannel));
      events := events + [Submitted(GKeyControlChannel)];
      RecordOne(events, Submitted(GKeyChannel));
      events := events + [Submitted(GKeyChannel)];
      gkCompletions := gkCompletions + 1;
    }

    /** `g19_lkey_cb`: decodes the first byte, calls the callback, then
        resubmits the L-key transfer. */
    method LKeyCompleted(buffer: seq<bv8>)
      requires Valid() && lkArmed > 0 && lkeysCb.Some? && |buffer| >= 1
      modifies this
      ensures Valid()
      ensures events == old(events) + [Delivered(LegacyLKeys(buffer)), Submitted(LKeyChannel)]
      ensures lkCompletions == old(lkCompletions) + 1 && gkCompletions == old(gkCompletions)
      ensures gkArmed == old(gkArmed) && lkArmed == old(lkArmed) && devh == old(devh)
      ensures gkeysCb == old(gkeysCb) && lkeysCb == old(lkeysCb) && usbCtx == old(usbCtx)
      ensures gkeysTransfer == old(gkeysTransfer) && gkeyscTransfer == old(gkeyscTransfer) && lkeysTransfer == old(lkeysTransfer)
      ensures ListUnchanged()
    {
      var keys := LegacyLKeys(buffer);
      RecordOne(events, Delivered(keys));
      events := events + [Delivered(keys)];
      RecordOne(events, Submitted(LKeyChannel));
      events := events + [Submitted(LKeyChannel)];
      lkCompletions := lkCompletions + 1;
    }

    /** `g19_update_lcd`: nothing without a device or for size 0; otherwise
        the payload goes to bulk endpoint 0x02. */
    method UpdateLcd(hdr: Header, data: seq<bv8>, size: nat, flags: LcdFlags)
      requires Valid() && LegacyReadable(|data|, size, flags)
      modifies this
      ensures Valid()
      ensures devh == None || size < 1 ==> events == old(events)
      ensures devh != None && size >= 1 ==>
        events == old(events) + [Sent(BulkOut(0x02, LegacyPayload(hdr, data, size, flags).value))]
      ensures LibraryUnchanged()
    {
      if devh == None || size < 1 {
        return;
      }
      var payload: seq<bv8>;
      if flags.prepend || flags.bmp {
        var bits := EncodeFrame(hdr, data, size, flags.bmp, BmpSize);
        payload := bits[..];
      } else {
        payload := data[..size];
      }
      Send(BulkOut(0x02, payload));
    }

    /** `g19_set_backlight`: -1 without a device, else 0 whatever the
        submission does. */
    method SetBacklight(r: bv8, g: bv8, b: bv8) returns (res: int)
      requires Valid()
      modifies this
      ensures Valid()
      ensures devh == None ==> res == -1 && events == old(events)
      ensures devh != None ==> res == 0 && events == old(events) + [Sent(ControlOut(BacklightPacket(r, g, b)))]
      ensures LibraryUnchanged()
    {
      if devh == None {
        return -1;
      }
      Send(ControlOut(BacklightPacket(r, g, b)));
      return 0;
    }

    /** `g19_set_mkey_led`: the same, with the old header's M-key bits. */
    method SetMkeyLed(keys: bv32) returns (res: int)
      requires Valid()
      modifies this
      ensures Valid()
      ensures devh == None ==> res == -1 && events == old(events)
      ensures devh != None ==> res == 0 && events == old(events) + [Sent(ControlOut(MKeysPacket(LegacyMLedByte(keys))))]
      ensures LibraryUnchanged()
    {
      if devh == None {
        return -1;
      }
      Send(ControlOut(MKeysPacket(LegacyMLedByte(keys))));
      return 0;
    }

    /** Records one transfer to the device. */
    method Send(t: Transfer)
      requires Valid()
      modifies this
      ensures Valid() && events == old(events) + [Sent(t)]
      ensures LibraryUnchanged()
    {
      SentKeepsSubmissions(events, Sent(t));
      events := events + [Sent(t)];
    }

    /** The device count and list that `g19_init` stored are as before. */
    twostate predicate ListUnchanged()
      reads this
    {
      devc == old(devc) && dlist == old(dlist)
    }

    /** Every global but the event record is as before. */
    twostate predicate LibraryUnchanged()
      reads this
    {
      usbCtx == old(usbCtx) && devh == old(devh) && devc == old(devc) && dlist == old(dlist)
      && gkeysCb == old(gkeysCb) && lkeysCb == old(lkeysCb)
      && gkeysTransfer == old(gkeysTransfer) && gkeyscTransfer == old(gkeyscTransfer) && lkeysTransfer == old(lkeysTransfer)
      && gkArmed == old(gkArmed) && lkArmed == old(lkArmed)
      && gkCompletions == old(gkCompletions) && lkCompletions == old(lkCompletions)
    }
  }

  /** Appending one event adds one submission on its own channel and none
      elsewhere. */
  lemma RecordOne(events: seq<Event>, e: Event)
    ensures Submissions(events + [e], GKeyChannel) == Submissions(events, GKeyChannel) + (if e == Submitted(GKeyChannel) then 1 else 0)
    ensures Submissions(events + [e], GKeyControlChannel) == Submissions(events, GKeyControlChannel) + (if e == Submitted(GKeyControlChannel) then 1 else 0)
    ensures Submissions(events + [e], LKeyChannel) == Submissions(events, LKeyChannel) + (if e == Submitted(LKeyChannel) then 1 else 0)
  {
    assert (events + [e])[..|events + [e]| - 1] == events;
  }

  /** `g19_device_proc` leaves no handle exactly when it selects nothing. */
  lemma ProcNoneClearsHandle(devs: seq<DeviceEntry>, s: Supported, r: int, h: Option<nat>)
    requires ProcSelect(devs, s, 0) == None ==> r == 1 && h == None
    requires ProcSelect(devs, s, 0).Some? ==> r == 0 && h == ProcSelect(devs, s, 0)
    ensures h == ProcSelect(devs, s, 0)
  {
  }
}
