/**
 * Choosing and configuring the keyboard in libusb's device list.
 * The per-device library (`g19_device_init`, `g19_device_count` in
 * libg19/libg19.c) selects the `index`-th G19 and aborts on the first
 * failure; the old library (`g19_device_proc` in libg19.c) takes the first
 * G19 it can open, ignores failures and retries claims.
 */
module Selection {
  import opened Wrappers
  import opened G19
  import opened Usb

  predicate IsG19(e: DeviceEntry)
  {
    e.vendor == VendorId && e.product == ProductId
  }

  /** An entry `g19_device_count` counts: descriptor read and G19 ids. */
  predicate Counted(e: DeviceEntry)
  {
    e.descResult == Success && IsG19(e)
  }

  /** How many entries are counted (left fold over the list). */
  function Matches(devs: seq<DeviceEntry>): nat
  {
    if devs == [] then 0
    else Matches(devs[..|devs| - 1]) + (if Counted(devs[|devs| - 1]) then 1 else 0)
  }

  predicate DescOkBefore(devs: seq<DeviceEntry>, n: nat)
    requires n <= |devs|
  {
    forall j :: 0 <= j < n ==> devs[j].descResult == Success
  }

  lemma MatchesStep(devs: seq<DeviceEntry>, i: nat)
    requires i < |devs|
    ensures Matches(devs[..i + 1]) == Matches(devs[..i]) + (if Counted(devs[i]) then 1 else 0)
  {
    assert devs[..i + 1][..i] == devs[..i];
  }

  lemma {:induction false} MatchesMonotone(devs: seq<DeviceEntry>, i: nat, j: nat)
    requires i <= j <= |devs|
    ensures Matches(devs[..i]) <= Matches(devs[..j])
    decreases j - i
  {
    if i < j {
      MatchesStep(devs, j - 1);
      MatchesMonotone(devs, i, j - 1);
    }
  }

  // ---------------------------------------------------------------
  // g19_device_init: the scan (libg19/libg19.c:48-69)
  // ---------------------------------------------------------------

  datatype Scan = DescFailed(at: nat, code: int) | Selected(at: nat) | NoMatch

  /** The scan loop from entry `i`, with `devc` G19s seen so far. */
  function ScanFrom(devs: seq<DeviceEntry>, index: nat, i: nat, devc: nat): Scan
    requires i <= |devs|
    decreases |devs| - i
  {
    if i == |devs| then NoMatch
    else if devs[i].descResult != Success then DescFailed(i, devs[i].descResult)
    else if IsG19(devs[i]) then
      if devc == index then Selected(i) else ScanFrom(devs, index, i + 1, devc + 1)
    else ScanFrom(devs, index, i + 1, devc)
  }

  function ScanDevices(devs: seq<DeviceEntry>, index: nat): Scan
  {
    ScanFrom(devs, index, 0, 0)
  }

  /** Entry `at` is a G19 preceded by exactly `index` G19s and by no
      unreadable descriptor. */
  predicate ScanSelects(devs: seq<DeviceEntry>, index: nat, at: nat)
  {
    at < |devs| && DescOkBefore(devs, at + 1) && IsG19(devs[at]) && Matches(devs[..at]) == index
  }

  /** Every descriptor reads and at most `index` G19s are listed. */
  predicate ScanFindsNothing(devs: seq<DeviceEntry>, index: nat)
  {
    DescOkBefore(devs, |devs|) && Matches(devs) <= index
  }

  /** Entry `at` is the first unreadable descriptor, and it comes before
      the G19 the scan is looking for. */
  predicate ScanFails(devs: seq<DeviceEntry>, index: nat, at: nat, code: int)
  {
    at < |devs| && DescOkBefore(devs, at) && code == devs[at].descResult
    && code != Success && Matches(devs[..at]) <= index
  }

  lemma {:induction false} ScanFromSpec(devs: seq<DeviceEntry>, index: nat, i: nat, devc: nat)
    requires i <= |devs| && DescOkBefore(devs, i)
    requires devc == Matches(devs[..i]) && devc <= index
    ensures ScanFrom(devs, index, i, devc).Selected? ==> ScanSelects(devs, index, ScanFrom(devs, index, i, devc).at)
    ensures ScanFrom(devs, index, i, devc).NoMatch? ==> ScanFindsNothing(devs, index)
    ensures ScanFrom(devs, index, i, devc).DescFailed? ==>
      ScanFails(devs, index, ScanFrom(devs, index, i, devc).at, ScanFrom(devs, index, i, devc).code)
    decreases |devs| - i
  {
    if i == |devs| {
      assert devs[..i] == devs;
    } else if devs[i].descResult != Success {
    } else {
      MatchesStep(devs, i);
      if IsG19(devs[i]) && devc == index {
      } else {
        ScanFromSpec(devs, index, i + 1, Matches(devs[..i + 1]));
      }
    }
  }

  /**
   * The scan, characterised without reference to the loop: it picks the
   * entry preceded by exactly `index` G19s, reports the first descriptor
   * failure before that, or finds nothing when every read succeeds and
   * fewer than `index + 1` G19s are listed.
   */
  lemma ScanSpec(devs: seq<DeviceEntry>, index: nat)
    ensures ScanDevices(devs, index).Selected? ==> ScanSelects(devs, index, ScanDevices(devs, index).at)
    ensures ScanDevices(devs, index).NoMatch? ==> ScanFindsNothing(devs, index)
    ensures ScanDevices(devs, index).DescFailed? ==>
      ScanFails(devs, index, ScanDevices(devs, index).at, ScanDevices(devs, index).code)
  {
    assert devs[..0] == [];
    ScanFromSpec(devs, index, 0, 0);
  }

  /** When every descriptor can be read, `g19_device_open(index)` finds a
      device exactly when `index` is below `g19_device_count()`. */
  lemma SelectIffBelowCount(devs: seq<DeviceEntry>, index: nat)
    requires DescOkBefore(devs, |devs|)
    ensures ScanDevices(devs, index).Selected? <==> index < Matches(devs)
    ensures ScanDevices(devs, index).NoMatch? <==> Matches(devs) <= index
  {
    ScanSpec(devs, index);
    match ScanDevices(devs, index)
    case Selected(at) =>
      MatchesStep(devs, at);
      MatchesMonotone(devs, at + 1, |devs|);
      assert devs[..|devs|] == devs;
    case NoMatch =>
    case DescFailed(at, _) =>
  }

  // ---------------------------------------------------------------
  // g19_device_init: claiming (libg19/libg19.c:71-95)
  // ---------------------------------------------------------------

  /** The outcome of the claim loops: the result code and the interface
      numbers claimed, in order, before it. */
  datatype Claims = Claims(res: int, claimed: seq<bv8>)

  /** `done` claimed first, then the outcome `rest`. */
  function Then(done: seq<bv8>, rest: Claims): Claims
  {
    Claims(rest.res, done + rest.claimed)
  }

  /** Auto-detach, then claim, per alternate setting; stop at a failure. */
  function ClaimAlts(alts: seq<AltSetting>): Claims
  {
    if alts == [] then Claims(Success, [])
    else if alts[0].detachResult != Success then Claims(alts[0].detachResult, [])
    else if ClaimResult(alts[0], 0) != Success then Claims(ClaimResult(alts[0], 0), [])
    else Then([alts[0].number], ClaimAlts(alts[1..]))
  }

  function ClaimIfaces(ifaces: seq<seq<AltSetting>>): Claims
  {
    if ifaces == [] then Claims(Success, [])
    else
      var r := ClaimAlts(ifaces[0]);
      if r.res != Success then r else Then(r.claimed, ClaimIfaces(ifaces[1..]))
  }

  function ClaimConfigs(configs: seq<ConfigEntry>): Claims
  {
    if configs == [] then Claims(Success, [])
    else if configs[0].result != Success then Claims(configs[0].result, [])
    else
      var r := ClaimIfaces(configs[0].interfaces);
      if r.res != Success then r else Then(r.claimed, ClaimConfigs(configs[1..]))
  }

  /** Every interface number of every alternate setting, in loop order. */
  function AltNumbers(alts: seq<AltSetting>): seq<bv8>
  {
    if alts == [] then [] else [alts[0].number] + AltNumbers(alts[1..])
  }

  function IfaceNumbers(ifaces: seq<seq<AltSetting>>): seq<bv8>
  {
    if ifaces == [] then [] else AltNumbers(ifaces[0]) + IfaceNumbers(ifaces[1..])
  }

  function ConfigNumbers(configs: seq<ConfigEntry>): seq<bv8>
  {
    if configs == [] then [] else IfaceNumbers(configs[0].interfaces) + ConfigNumbers(configs[1..])
  }

  predicate AltOk(a: AltSetting)
  {
    a.detachResult == Success && ClaimResult(a, 0) == Success
  }

  /** Every request the claim loops make succeeds. */
  predicate AllSucceed(configs: seq<ConfigEntry>)
  {
    forall c :: 0 <= c < |configs| ==>
      configs[c].result == Success
      && forall j :: 0 <= j < |configs[c].interfaces| ==>
           forall k :: 0 <= k < |configs[c].interfaces[j]| ==> AltOk(configs[c].interfaces[j][k])
  }

  lemma {:induction false} ClaimAltsSound(alts: seq<AltSetting>)
    ensures var r := ClaimAlts(alts);
      (r.res == Success <==> forall k :: 0 <= k < |alts| ==> AltOk(alts[k]))
      && (r.res == Success ==> r.claimed == AltNumbers(alts))
      && r.claimed <= AltNumbers(alts)
  {
    if alts != [] {
      ClaimAltsSound(alts[1..]);
      assert forall k :: 1 <= k < |alts| ==> alts[k] == alts[1..][k - 1];
    }
  }

  lemma {:induction false} ClaimIfacesSound(ifaces: seq<seq<AltSetting>>)
    ensures var r := ClaimIfaces(ifaces);
      (r.res == Success <==> forall j :: 0 <= j < |ifaces| ==>
         forall k :: 0 <= k < |ifaces[j]| ==> AltOk(ifaces[j][k]))
      && (r.res == Success ==> r.claimed == IfaceNumbers(ifaces))
      && r.claimed <= IfaceNumbers(ifaces)
  {
    if ifaces != [] {
      ClaimAltsSound(ifaces[0]);
      ClaimIfacesSound(ifaces[1..]);
      assert forall j :: 1 <= j < |ifaces| ==> ifaces[j] == ifaces[1..][j - 1];
    }
  }

  /**
   * The claim loops succeed exactly when every request succeeds, and then
   * every alternate setting's interface has been claimed, in order; after
   * a failure the interfaces claimed are a prefix of that order.
   */
  lemma {:induction false} ClaimConfigsSound(configs: seq<ConfigEntry>)
    ensures var r := ClaimConfigs(configs);
      (r.res == Success <==> AllSucceed(configs))
      && (r.res == Success ==> r.claimed == ConfigNumbers(configs))
      && r.claimed <= ConfigNumbers(configs)
  {
    if configs != [] {
      ClaimConfigsSound(configs[1..]);
      assert forall c :: 1 <= c < |configs| ==> configs[c] == configs[1..][c - 1];
      if configs[0].result == Success {
        ClaimIfacesSound(configs[0].interfaces);
      }
    }
  }

  method ClaimAltSettings(alts: seq<AltSetting>) returns (r: Claims)
    ensures r == ClaimAlts(alts)
  {
    var claimed: seq<bv8> := [];
    var k := 0;
    while k < |alts|
      invariant k <= |alts|
      invariant Then(claimed, ClaimAlts(alts[k..])) == ClaimAlts(alts)
    {
      assert alts[k..][1..] == alts[k + 1..];
      var res := alts[k].detachResult;
      if res != Success {
        return Claims(res, claimed);
      }
      res := ClaimResult(alts[k], 0);
      if res != Success {
        return Claims(res, claimed);
      }
      claimed := claimed + [alts[k].number];
      k := k + 1;
    }
    return Claims(Success, claimed);
  }

  method ClaimInterfaces(ifaces: seq<seq<AltSetting>>) returns (r: Claims)
    ensures r == ClaimIfaces(ifaces)
  {
    var claimed: seq<bv8> := [];
    var j := 0;
    while j < |ifaces|
      invariant j <= |ifaces|
      invariant Then(claimed, ClaimIfaces(ifaces[j..])) == ClaimIfaces(ifaces)
    {
      ClaimIfacesStep(ifaces, j);
      var a := ClaimAltSettings(ifaces[j]);
      if a.res != Success {
        return Claims(a.res, claimed + a.claimed);
      }
      ThenThen(claimed, a.claimed, ClaimIfaces(ifaces[j + 1..]));
      claimed := claimed + a.claimed;
      j := j + 1;
    }
    return Claims(Success, claimed);
  }

  /** Claims made in two stretches are the claims of both, in order. */
  lemma ThenThen(a: seq<bv8>, b: seq<bv8>, r: Claims)
    ensures Then(a, Then(b, r)) == Then(a + b, r)
  {
    assert a + (b + r.claimed) == (a + b) + r.claimed;
  }

  lemma ClaimIfacesStep(ifaces: seq<seq<AltSetting>>, j: nat)
    requires j < |ifaces|
    ensures var a := ClaimAlts(ifaces[j]);
      ClaimIfaces(ifaces[j..]) == if a.res != Success then a else Then(a.claimed, ClaimIfaces(ifaces[j + 1..]))
  {
    assert ifaces[j..][0] == ifaces[j];
    assert ifaces[j..][1..] == ifaces[j + 1..];
  }

  lemma ClaimConfigsStep(configs: seq<ConfigEntry>, c: nat)
    requires c < |configs|
    ensures configs[c].result != Success ==> ClaimConfigs(configs[c..]) == Claims(configs[c].result, [])
    ensures configs[c].result == Success ==>
      var i := ClaimIfaces(configs[c].interfaces);
      ClaimConfigs(configs[c..]) == if i.res != Success then i else Then(i.claimed, ClaimConfigs(configs[c + 1..]))
  {
    assert configs[c..][0] == configs[c];
    assert configs[c..][1..] == configs[c + 1..];
  }

  method ClaimConfigurations(configs: seq<ConfigEntry>) returns (r: Claims)
    ensures r == ClaimConfigs(configs)
  {
    var claimed: seq<bv8> := [];
    var c := 0;
    while c < |configs|
      invariant c <= |configs|
      invariant Then(claimed, ClaimConfigs(configs[c..])) == ClaimConfigs(configs)
    {
      ClaimConfigsStep(configs, c);
      var cfg := configs[c];
      if cfg.result != Success {
        return Claims(cfg.result, claimed);
      }
      var i := ClaimInterfaces(cfg.interfaces);
      if i.res != Success {
        return Claims(i.res, claimed + i.claimed);
      }
      ThenThen(claimed, i.claimed, ClaimConfigs(configs[c + 1..]));
      claimed := claimed + i.claimed;
      c := c + 1;
    }
    return Claims(Success, claimed);
  }

  /** The whole outcome of `g19_device_init` for a list and an index. */
  function InitOutcome(devs: seq<DeviceEntry>, index: nat): (int, Option<nat>, seq<bv8>)
  {
    match ScanDevices(devs, index)
    case DescFailed(_, code) => (code, None, [])
    case NoMatch => (ErrorNoDevice, None, [])
    case Selected(i) =>
      if i < |devs| then
        if devs[i].openResult != Success then (devs[i].openResult, None, [])
        else
          var r := ClaimConfigs(devs[i].configs);
          (r.res, Some(i), r.claimed)
      else (ErrorNoDevice, None, [])
  }

  /** Success always comes with an opened handle. */
  lemma InitSuccessHasHandle(devs: seq<DeviceEntry>, index: nat)
    ensures InitOutcome(devs, index).0 == Success ==> InitOutcome(devs, index).1.Some?
  {
    ScanSpec(devs, index);
  }

  lemma ScanFromInRange(devs: seq<DeviceEntry>, index: nat, i: nat, devc: nat)
    requires i <= |devs|
    ensures ScanFrom(devs, index, i, devc).Selected? ==> ScanFrom(devs, index, i, devc).at < |devs|
    decreases |devs| - i
  {
    if i < |devs| && devs[i].descResult == Success {
      if IsG19(devs[i]) && devc == index {
      } else if IsG19(devs[i]) {
        ScanFromInRange(devs, index, i + 1, devc + 1);
      } else {
        ScanFromInRange(devs, index, i + 1, devc);
      }
    }
  }

  /**
   * `g19_device_init` with `udev` initialised to NULL: returns the first
   * descriptor or open error, LIBUSB_ERROR_NO_DEVICE when no G19 is at
   * `index`, otherwise the handle of the selected device and the result of
   * the claim loops. `hndl` is the list position whose handle was opened.
   */
  method DeviceInit(devs: seq<DeviceEntry>, index: nat) returns (res: int, hndl: Option<nat>, claimed: seq<bv8>)
    ensures (res, hndl, claimed) == InitOutcome(devs, index)
    ensures hndl.Some? ==> hndl.value < |devs| && IsG19(devs[hndl.value])
  {
    var udev: Option<nat> := None;
    var devc: nat := 0;
    var i := 0;
    while i < |devs|
      invariant i <= |devs|
      invariant udev == None
      invariant ScanFrom(devs, index, i, devc) == ScanDevices(devs, index)
    {
      if devs[i].descResult != Success {
        return devs[i].descResult, None, [];
      }
      if IsG19(devs[i]) {
        var matched := devc == index;
        devc := devc + 1;
        if matched {
          if devs[i].openResult != Success {
            return devs[i].openResult, None, [];
          }
          udev := Some(i);
          break;
        }
      }
      i := i + 1;
    }
    if udev == None {
      return ErrorNoDevice, None, [];
    }
    assert ScanDevices(devs, index) == Selected(udev.value) && IsG19(devs[udev.value]);
    var r := ClaimConfigurations(devs[udev.value].configs);
    return r.res, udev, r.claimed;
  }

  /**
   * The no-match test as written: `udev` is assigned only when a device is
   * selected, so after a scan that selects nothing it still holds whatever
   * was in its stack slot (`stale`).
   */
  function UdevAsWritten(scan: Scan, stale: Option<nat>): Option<nat>
  {
    match scan
    case Selected(i) => Some(i)
    case _ => stale
  }

  /**
   * The result and opened handle of `g19_device_init` as written. When the
   * scan selects nothing and the stale `udev` is not NULL, the
   * configuration loop runs on that stale device: `staleConfigs` stands
   * for the configuration descriptors read from it, as many as
   * bNumConfigurations of the last descriptor read announces, and the
   * claims go to a handle that was never opened.
   */
  function InitOutcomeAsWritten(devs: seq<DeviceEntry>, index: nat, stale: Option<nat>, staleConfigs: seq<ConfigEntry>): (int, Option<nat>)
  {
    var scan := ScanDevices(devs, index);
    if scan.Selected? then (InitOutcome(devs, index).0, InitOutcome(devs, index).1)
    else if scan.DescFailed? then (scan.code, None)
    else if UdevAsWritten(scan, stale).None? then (ErrorNoDevice, None)
    else (ClaimConfigs(staleConfigs).res, None)
  }

  /** A list whose one entry is not a G19 and announces no configuration:
      the scan selects nothing, yet a non-NULL stale `udev` skips the
      LIBUSB_ERROR_NO_DEVICE return, the configuration loop runs zero times
      and the written init reports success without opening any handle.
      With `udev` starting NULL the init reports LIBUSB_ERROR_NO_DEVICE. */
  lemma StaleUdevSkipsNoDevice(e: DeviceEntry)
    requires e.descResult == Success && e.vendor != VendorId && e.configs == []
    ensures ScanDevices([e], 0) == NoMatch
    ensures UdevAsWritten(ScanDevices([e], 0), Some(0)) != None
    ensures InitOutcomeAsWritten([e], 0, Some(0), e.configs) == (Success, None)
    ensures InitOutcome([e], 0).0 == ErrorNoDevice
  {
    assert ScanFrom([e], 0, 1, 0) == NoMatch;
  }

  // ---------------------------------------------------------------
  // g19_device_count (libg19/libg19.c:320-357)
  // ---------------------------------------------------------------

  /** Counts the G19s in the list, skipping entries whose descriptor cannot
      be read; returns a libusb_init or device-list error unchanged. */
  method DeviceCount(initResult: int, list: DeviceList) returns (n: int)
    ensures initResult != Success ==> n == initResult
    ensures initResult == Success && list.ListFailed? ==> n == list.code
    ensures initResult == Success && list.Listed? ==> n == Matches(list.devs)
  {
    if initResult != Success {
      return initResult;
    }
    if list.ListFailed? {
      return list.code;
    }
    var devs := list.devs;
    var devc: nat := 0;
    var i := 0;
    while i < |devs|
      invariant i <= |devs| && devc == Matches(devs[..i])
    {
      MatchesStep(devs, i);
      if devs[i].descResult == Success && IsG19(devs[i]) {
        devc := devc + 1;
      }
      i := i + 1;
    }
    assert devs[..i] == devs;
    return devc;
  }

  // ---------------------------------------------------------------
  // g19_device_proc, old library (libg19.c:30-32, 63-120)
  // ---------------------------------------------------------------

  /** An entry of the old library's table of supported devices. */
  datatype Supported = Supported(name: string, vendor: bv16, product: bv16)

  const G19Supported: Supported := Supported("Logitech G19 LCD", 0x046d, 0xc229)
  const SupportedDevices: seq<Supported> := [G19Supported]

  /** The table holds exactly the G19 ids of the new header. */
  lemma SupportedIsG19(e: DeviceEntry)
    ensures SupportedDevices == [G19Supported]
    ensures G19Supported.vendor == VendorId && G19Supported.product == ProductId
    ensures Openable(e, G19Supported) ==> Counted(e)
  {
  }

  /** An entry the old loop stops at: readable, matching, opens. */
  predicate Openable(e: DeviceEntry, s: Supported)
  {
    e.descResult == Success && e.vendor == s.vendor && e.product == s.product && e.openResult == Success
  }

  /** The entry the old loop opens, searching from `m`. */
  function ProcSelect(devs: seq<DeviceEntry>, s: Supported, m: nat): Option<nat>
    requires m <= |devs|
    decreases |devs| - m
  {
    if m == |devs| then None
    else if Openable(devs[m], s) then Some(m)
    else ProcSelect(devs, s, m + 1)
  }

  lemma {:induction false} ProcSelectSpec(devs: seq<DeviceEntry>, s: Supported, m: nat)
    requires m <= |devs|
    ensures ProcSelect(devs, s, m).Some? ==>
      var i := ProcSelect(devs, s, m).value;
      m <= i < |devs| && Openable(devs[i], s) && forall j :: m <= j < i ==> !Openable(devs[j], s)
    ensures ProcSelect(devs, s, m).None? ==> forall j :: m <= j < |devs| ==> !Openable(devs[j], s)
    decreases |devs| - m
  {
    if m < |devs| && !Openable(devs[m], s) {
      ProcSelectSpec(devs, s, m + 1);
    }
  }

  /** The interfaces the old loops claim: every alternate setting of every
      configuration whose descriptor can be read; unreadable ones are
      skipped. */
  function ReadableNumbers(configs: seq<ConfigEntry>): seq<bv8>
  {
    if configs == [] then []
    else ReadableOf(configs[0]) + ReadableNumbers(configs[1..])
  }

  /** What one configuration contributes: nothing when its descriptor
      cannot be read. */
  function ReadableOf(e: ConfigEntry): seq<bv8>
  {
    if e.result == Success then IfaceNumbers(e.interfaces) else []
  }

  /**
   * One claim, then the retry loop: claim again while the claim fails and
   * fewer than ten sleeps have happened. `calls` counts claim requests,
   * `sleeps` the one-second waits between them.
   */
  method ClaimWithRetry(a: AltSetting) returns (calls: nat, sleeps: nat)
    ensures sleeps <= 10 && calls == sleeps + 2
    ensures forall j :: 1 <= j <= sleeps ==> ClaimResult(a, j) != Success
    ensures sleeps < 10 ==> ClaimResult(a, 1 + sleeps) == Success
  {
    var _ := ClaimResult(a, 0);
    calls := 1;
    var e := 0;
    var r := ClaimResult(a, calls);
    calls := calls + 1;
    while r != Success && e < 10
      invariant e <= 10 && calls == e + 2
      decreases 10 - e
      invariant r == ClaimResult(a, 1 + e)
      invariant forall j :: 1 <= j <= e ==> ClaimResult(a, j) != Success
    {
      e := e + 1;
      r := ClaimResult(a, calls);
      calls := calls + 1;
    }
    sleeps := e;
  }

  method ProcAltSettings(alts: seq<AltSetting>) returns (claimed: seq<bv8>)
    ensures claimed == AltNumbers(alts)
  {
    claimed := [];
    var d := 0;
    while d < |alts|
      invariant d <= |alts|
      invariant claimed + AltNumbers(alts[d..]) == AltNumbers(alts)
    {
      assert alts[d..][1..] == alts[d + 1..];
      var _, _ := ClaimWithRetry(alts[d]);
      claimed := claimed + [alts[d].number];
      d := d + 1;
    }
  }

  method ProcInterfaces(ifaces: seq<seq<AltSetting>>) returns (claimed: seq<bv8>)
    ensures claimed == IfaceNumbers(ifaces)
  {
    claimed := [];
    var i := 0;
    while i < |ifaces|
      invariant i <= |ifaces|
      invariant claimed + IfaceNumbers(ifaces[i..]) == IfaceNumbers(ifaces)
    {
      assert ifaces[i..][1..] == ifaces[i + 1..];
      var a := ProcAltSettings(ifaces[i]);
      claimed := claimed + a;
      i := i + 1;
    }
  }

  /**
   * `g19_device_proc`: skips entries whose descriptor cannot be read, whose
   * ids differ from the table entry or that fail to open; configures the
   * first one that opens and returns 0; returns 1 with no handle if none
   * does. The result does not depend on any claim succeeding.
   */
  method DeviceProc(devs: seq<DeviceEntry>, s: Supported) returns (res: int, devh: Option<nat>, claimed: seq<bv8>)
    ensures ProcSelect(devs, s, 0) == None ==> res == 1 && devh == None && claimed == []
    ensures ProcSelect(devs, s, 0).Some? ==>
      res == 0 && devh == ProcSelect(devs, s, 0) && devh.value < |devs|
      && claimed == ReadableNumbers(devs[devh.value].configs)
  {
    var m := 0;
    while m < |devs|
      invariant m <= |devs| && ProcSelect(devs, s, m) == ProcSelect(devs, s, 0)
    {
      var e := devs[m];
      if e.descResult != Success || e.vendor != s.vendor || e.product != s.product || e.openResult != Success {
        m := m + 1;
        continue;
      }
      claimed := ProcConfigs(e.configs);
      return 0, Some(m), claimed;
    }
    return 1, None, [];
  }

  /** The configuration loop of `g19_device_proc`: a configuration whose
      descriptor cannot be read is skipped, every other one has all its
      interfaces claimed. */
  method ProcConfigs(configs: seq<ConfigEntry>) returns (claimed: seq<bv8>)
    ensures claimed == ReadableNumbers(configs)
  {
    claimed := [];
    var c := 0;
    while c < |configs|
      invariant c <= |configs|
      invariant claimed + ReadableNumbers(configs[c..]) == ReadableNumbers(configs)
    {
      var added: seq<bv8> := [];
      if configs[c].result == Success {
        added := ProcInterfaces(configs[c].interfaces);
      }
      assert added == ReadableOf(configs[c]);
      ReadableStep(configs, c, claimed);
      claimed := claimed + added;
      c := c + 1;
    }
  }

  lemma ReadableStep(configs: seq<ConfigEntry>, c: nat, claimed: seq<bv8>)
    requires c < |configs|
    ensures claimed + ReadableNumbers(configs[c..])
         == (claimed + ReadableOf(configs[c])) + ReadableNumbers(configs[c + 1..])
  {
    var tail := configs[c..];
    assert tail[0] == configs[c];
    ReadableUnfold(tail, configs[c + 1..]);
    var rest := ReadableNumbers(configs[c + 1..]);
    assert (claimed + ReadableOf(configs[c])) + rest == claimed + (ReadableOf(configs[c]) + rest);
  }

  lemma ReadableUnfold(tail: seq<ConfigEntry>, rest: seq<ConfigEntry>)
    requires tail != [] && rest == tail[1..]
    ensures ReadableNumbers(tail) == ReadableOf(tail[0]) + ReadableNumbers(rest)
  {
  }

  /** No G19 among the first `n` entries when none of them is counted. */
  lemma NoneOpenableBefore(devs: seq<DeviceEntry>, n: nat)
    requires n <= |devs| && DescOkBefore(devs, n) && Matches(devs[..n]) == 0
    ensures forall j :: 0 <= j < n ==> !Openable(devs[j], G19Supported)
  {
    forall j | 0 <= j < n
      ensures !Openable(devs[j], G19Supported)
    {
      MatchesMonotone(devs, j + 1, n);
      MatchesStep(devs, j);
    }
  }

  lemma PickSelected(devs: seq<DeviceEntry>, at: nat)
    requires forall j :: 0 <= j < |devs| ==> devs[j].openResult == Success
    requires ScanSelects(devs, 0, at)
    ensures ProcSelect(devs, G19Supported, 0) == Some(at)
  {
    ProcSelectSpec(devs, G19Supported, 0);
    NoneOpenableBefore(devs, at);
    assert Openable(devs[at], G19Supported);
  }

  lemma PickNothing(devs: seq<DeviceEntry>)
    requires ScanFindsNothing(devs, 0)
    ensures ProcSelect(devs, G19Supported, 0) == None
  {
    ProcSelectSpec(devs, G19Supported, 0);
    assert devs[..|devs|] == devs;
    NoneOpenableBefore(devs, |devs|);
  }

  /** When every entry reads and opens, both revisions pick the first G19,
      the per-device one with index 0. */
  lemma RevisionsPickSameDevice(devs: seq<DeviceEntry>)
    requires forall j :: 0 <= j < |devs| ==> devs[j].descResult == Success && devs[j].openResult == Success
    ensures ScanDevices(devs, 0).Selected? <==> ProcSelect(devs, G19Supported, 0).Some?
    ensures ScanDevices(devs, 0).Selected? ==> ProcSelect(devs, G19Supported, 0) == Some(ScanDevices(devs, 0).at)
  {
    ScanSpec(devs, 0);
    var scan := ScanDevices(devs, 0);
    if scan.Selected? {
      PickSelected(devs, scan.at);
    } else if scan.NoMatch? {
      PickNothing(devs);
    }
  }
}
