/** OSD device enumeration: one `/dev/vd?` path per allocated volume, letters
    counted up from 'b', minus the dedicated journal devices in the
    non-collocated scenario, rendered into the `devices='…'` host variable. */
module Devices {
  import opened Wrappers
  import opened Text

  /** `devchar = 98`, the code of 'b'. */
  const FirstDeviceChar: nat := 98
  /** The largest code Python 2's `chr` accepts. */
  const MaxChr: nat := 255
  /** How many device letters `chr` can produce before it raises. */
  const MaxDevices: nat := MaxChr - FirstDeviceChar + 1

  const NonCollocated := "non-collocated"

  /** The OSD entries of `ansi_config` the enumeration reads. */
  datatype OsdSettings = OsdSettings(
    osdScenario: Option<string>,
    dedicatedDevices: Option<seq<string>>,
    autoDiscovery: bool)

  /** The exceptions device enumeration can raise: `chr` past 255, and
      `set(None)` when the non-collocated scenario lists no dedicated devices. */
  datatype DeviceError = LetterOutOfRange | NoDedicatedDevices

  /** The path of the `i`-th device of a node. */
  function DeviceName(i: nat): string
    requires i < MaxDevices
  {
    "/dev/vd" + [(FirstDeviceChar + i) as char]
  }

  /** The first `k` device paths, `/dev/vdb` onwards: the `i`-th is
      `/dev/vd` followed by the letter with code 98 + i. */
  function DeviceNames(k: nat): (names: seq<string>)
    requires k <= MaxDevices
    ensures |names| == k
    ensures forall i :: 0 <= i < k ==> |names[i]| == 8 && names[i][..7] == "/dev/vd"
                                       && names[i][7] as int == FirstDeviceChar + i
  {
    seq(k, i requires 0 <= i < k => DeviceName(i))
  }

  /** `k` devices get `k` different paths, the `i`-th one ending in chr(98 + i),
      and each list extends the shorter ones. */
  lemma DeviceNamesSpec(k: nat)
    requires k <= MaxDevices
    ensures |DeviceNames(k)| == k
    ensures forall i :: 0 <= i < k ==> |DeviceNames(k)[i]| == 8 && DeviceNames(k)[i][..7] == "/dev/vd"
                                       && DeviceNames(k)[i][7] == (FirstDeviceChar + i) as char
    ensures forall i, j :: 0 <= i < j < k ==> DeviceNames(k)[i] != DeviceNames(k)[j]
    ensures forall m :: 0 <= m <= k ==> DeviceNames(k)[..m] == DeviceNames(m)
  {
    forall i, j | 0 <= i < j < k
      ensures DeviceNames(k)[i] != DeviceNames(k)[j]
    {
      assert DeviceNames(k)[i][7] != DeviceNames(k)[j][7];
    }
  }

  /** A node with three volumes and no reserved devices. */
  lemma ThreeDevices()
    ensures DeviceNames(3) == ["/dev/vdb", "/dev/vdc", "/dev/vdd"]
  {
    assert DeviceName(0) == "/dev/vdb";
    assert DeviceName(1) == "/dev/vdc";
    assert DeviceName(2) == "/dev/vdd";
  }

  /** Lines 191-196: the `devchar` loop. */
  method EnumerateDevices(devices: nat) returns (r: Result<seq<string>, DeviceError>)
    ensures devices <= MaxDevices ==> r == Success(DeviceNames(devices))
    ensures devices > MaxDevices ==> r == Failure(LetterOutOfRange)
  {
    var devchar := FirstDeviceChar;
    var devs: seq<string> := [];
    for vol := 0 to devices
      invariant vol <= MaxDevices
      invariant devchar == FirstDeviceChar + vol
      invariant devs == DeviceNames(vol)
    {
      if devchar > MaxChr {
        return Failure(LetterOutOfRange);
      }
      var dev := "/dev/vd" + [devchar as char];
      devs := devs + [dev];
      devchar := devchar + 1;
    }
    return Success(devs);
  }

  /** `[_dev for _dev in devs if _dev not in reserved_devs]`: no reserved
      device is kept, and nothing is added. */
  function RemoveReserved(devs: seq<string>, reserved: set<string>): (kept: seq<string>)
    ensures |kept| <= |devs|
    ensures forall d :: d in kept ==> d in devs && d !in reserved
  {
    if devs == [] then []
    else
      var last := devs[|devs| - 1];
      RemoveReserved(devs[..|devs| - 1], reserved) + (if last in reserved then [] else [last])
  }

  /** The filter keeps exactly the unreserved devices. */
  lemma {:induction false} RemoveReservedMembers(devs: seq<string>, reserved: set<string>)
    ensures forall d :: d in RemoveReserved(devs, reserved) <==> d in devs && d !in reserved
    ensures |RemoveReserved(devs, reserved)| <= |devs|
  {
    if devs != [] {
      var prefix := devs[..|devs| - 1];
      RemoveReservedMembers(prefix, reserved);
      assert devs == prefix + [devs[|devs| - 1]];
    }
  }

  /** The filter keeps the order: filtering two lists one after the other is
      filtering each. */
  lemma {:induction false} RemoveReservedAppend(a: seq<string>, b: seq<string>, reserved: set<string>)
    ensures RemoveReserved(a + b, reserved) == RemoveReserved(a, reserved) + RemoveReserved(b, reserved)
    decreases |b|
  {
    if b == [] {
      assert a + b == a;
    } else {
      var prefix := b[..|b| - 1];
      assert (a + b)[..|a + b| - 1] == a + prefix;
      RemoveReservedAppend(a, prefix, reserved);
    }
  }

  /** With nothing reserved the list is left as it is. */
  lemma {:induction false} RemoveNothing(devs: seq<string>)
    ensures RemoveReserved(devs, {}) == devs
  {
    if devs != [] {
      RemoveNothing(devs[..|devs| - 1]);
    }
  }

  /** On a list without repeats, the filter drops one entry per reserved
      device that is present; removing one present device shortens it by one. */
  lemma {:induction false} RemoveReservedLength(devs: seq<string>, reserved: set<string>)
    requires Distinct(devs)
    ensures |RemoveReserved(devs, reserved)| == |devs| - |reserved * Elements(devs)|
  {
    if devs == [] {
      assert Elements(devs) == {};
    } else {
      var prefix := devs[..|devs| - 1];
      var last := devs[|devs| - 1];
      DistinctLast(devs);
      RemoveReservedLength(prefix, reserved);
      ElementsLast(devs);
      ReservedPresent(reserved * Elements(prefix), reserved, Elements(prefix), last);
    }
  }

  /** Without repeats, the entries before the last have none either and do
      not include the last. */
  lemma DistinctLast(devs: seq<string>)
    requires devs != [] && Distinct(devs)
    ensures Distinct(devs[..|devs| - 1])
    ensures devs[|devs| - 1] !in Elements(devs[..|devs| - 1])
  {
    var prefix := devs[..|devs| - 1];
    forall i | 0 <= i < |prefix| ensures prefix[i] != devs[|devs| - 1] {
      assert prefix[i] == devs[i];
    }
  }

  /** Adding an element not yet present grows the reserved part by at most it. */
  lemma ReservedPresent(before: set<string>, reserved: set<string>, present: set<string>, last: string)
    requires before == reserved * present && last !in present
    ensures |reserved * (present + {last})| == |before| + (if last in reserved then 1 else 0)
  {
    if last in reserved {
      assert reserved * (present + {last}) == before + {last};
    } else {
      assert reserved * (present + {last}) == before;
    }
  }

  /** Lines 190-201 for an OSD node with `count` allocated volumes. It fails
      only past the last letter or when the non-collocated scenario lists no
      dedicated devices, and never yields more devices than volumes. */
  function DevicesFor(count: nat, settings: OsdSettings): (r: Result<seq<string>, DeviceError>)
    ensures r.Failure? <==> count > MaxDevices
                            || (settings.osdScenario == Some(NonCollocated) && settings.dedicatedDevices.None?)
    ensures r.Success? ==> |r.value| <= count
  {
    if count > MaxDevices then Failure(LetterOutOfRange)
    else if settings.osdScenario == Some(NonCollocated) && settings.dedicatedDevices.None? then Failure(NoDedicatedDevices)
    else
      var reserved := if settings.osdScenario == Some(NonCollocated)
                      then Elements(settings.dedicatedDevices.value)
                      else {};
      Success(RemoveReserved(DeviceNames(count), reserved))
  }

  /** Reserved devices are dropped only in the non-collocated scenario; there
      the result is the generated list minus the dedicated devices, in order,
      shorter by the number of dedicated devices it contained. */
  lemma DevicesForSpec(count: nat, settings: OsdSettings)
    ensures count > MaxDevices ==> DevicesFor(count, settings) == Failure(LetterOutOfRange)
    ensures count <= MaxDevices && settings.osdScenario != Some(NonCollocated)
            ==> DevicesFor(count, settings) == Success(DeviceNames(count))
    ensures count <= MaxDevices && settings.osdScenario == Some(NonCollocated) && settings.dedicatedDevices.None?
            ==> DevicesFor(count, settings) == Failure(NoDedicatedDevices)
    ensures count <= MaxDevices && settings.osdScenario == Some(NonCollocated) && settings.dedicatedDevices.Some?
            ==> var reserved := Elements(settings.dedicatedDevices.value);
                && DevicesFor(count, settings).Success?
                && (forall d :: d in DevicesFor(count, settings).value <==> d in DeviceNames(count) && d !in reserved)
                && |DevicesFor(count, settings).value| == count - |reserved * Elements(DeviceNames(count))|
  {
    if count <= MaxDevices {
      DeviceNamesSpec(count);
      RemoveNothing(DeviceNames(count));
      if settings.osdScenario == Some(NonCollocated) && settings.dedicatedDevices.Some? {
        var reserved := Elements(settings.dedicatedDevices.value);
        RemoveReservedMembers(DeviceNames(count), reserved);
        RemoveReservedLength(DeviceNames(count), reserved);
      }
    }
  }

  // ---- the devices='…' host variable ----

  function Quote(s: string): string
  {
    "\"" + s + "\""
  }

  function QuoteAll(xs: seq<string>): (r: seq<string>)
    ensures |r| == |xs|
  {
    seq(|xs|, i requires 0 <= i < |xs| => Quote(xs[i]))
  }

  /** `json.dumps` of a list of strings that need no escaping: a bracketed
      text, `[]` for no strings. */
  function JsonList(xs: seq<string>): (t: string)
    ensures |t| >= 2 && t[0] == '[' && t[|t| - 1] == ']'
    ensures xs == [] ==> t == "[]"
  {
    "[" + Join(QuoteAll(xs), ", ") + "]"
  }

  /** The position of the first '"' at or after `from`, or |s|. */
  function QuoteIndex(s: string, from: nat): (r: nat)
    requires from <= |s|
    ensures from <= r <= |s|
    ensures r < |s| ==> s[r] == '"'
    ensures forall k :: from <= k < r ==> s[k] != '"'
    decreases |s| - from
  {
    if from == |s| then |s|
    else if s[from] == '"' then from
    else QuoteIndex(s, from + 1)
  }

  /** Reads `"a", "b", …` back into its strings. */
  function ParseItems(s: string): Option<seq<string>>
    decreases |s|
  {
    if |s| < 2 || s[0] != '"' then None
    else
      var q := QuoteIndex(s, 1);
      if q == |s| then None
      else
        var rest := s[q + 1..];
        if rest == "" then Some([s[1..q]])
        else if |rest| >= 2 && rest[..2] == ", " then
          match ParseItems(rest[2..])
          case Some(more) => Some([s[1..q]] + more)
          case None => None
        else None
  }

  /** A reference reader for JSON lists of strings without escapes: the
      text the device list must denote. */
  function ParseJsonList(t: string): Option<seq<string>>
  {
    if |t| < 2 || t[0] != '[' || t[|t| - 1] != ']' then None
    else if |t| == 2 then Some([])
    else ParseItems(t[1..|t| - 1])
  }

  predicate QuoteFree(xs: seq<string>)
  {
    forall i :: 0 <= i < |xs| ==> '"' !in xs[i]
  }

  /** The first quoted item of a list reads back, leaving the rest after it. */
  lemma ParseFirstItem(x: string, tail: string)
    requires '"' !in x
    ensures var s := Quote(x) + tail;
            && QuoteIndex(s, 1) == |x| + 1
            && s[1..|x| + 1] == x
            && s[|x| + 2..] == tail
  {
    var s := Quote(x) + tail;
    forall k | 1 <= k < |x| + 1
      ensures s[k] != '"'
    {
      assert s[k] == x[k - 1];
    }
    assert s[|x| + 1] == '"';
  }

  /** A list of one quoted item reads back as that item. */
  lemma ParseOneItem(x: string)
    requires '"' !in x
    ensures ParseItems(Quote(x)) == Some([x])
  {
    ParseFirstItem(x, "");
    assert Quote(x) + "" == Quote(x);
  }

  /** A quoted item followed by `, ` reads back in front of what follows. */
  lemma ParseMoreItems(x: string, rest: string)
    requires '"' !in x
    ensures ParseItems(Quote(x) + (", " + rest))
            == match ParseItems(rest) case Some(more) => Some([x] + more) case None => None
  {
    ParseFirstItem(x, ", " + rest);
    assert (", " + rest)[..2] == ", " && (", " + rest)[2..] == rest;
  }

  lemma {:induction false} ParseItemsJoined(xs: seq<string>)
    requires xs != [] && QuoteFree(xs)
    ensures ParseItems(Join(QuoteAll(xs), ", ")) == Some(xs)
    decreases |xs|
  {
    var x := xs[0];
    assert '"' !in x;
    if |xs| == 1 {
      ParseOneItem(x);
      assert xs == [x];
    } else {
      var rest := Join(QuoteAll(xs[1..]), ", ");
      assert QuoteAll(xs)[1..] == QuoteAll(xs[1..]);
      assert Join(QuoteAll(xs), ", ") == Quote(x) + ", " + rest;
      assert Quote(x) + ", " + rest == Quote(x) + (", " + rest);
      ParseMoreItems(x, rest);
      ParseItemsJoined(xs[1..]);
      assert [x] + xs[1..] == xs;
    }
  }

  /** The rendered device list reads back as the same list. */
  lemma JsonRoundTrip(xs: seq<string>)
    requires QuoteFree(xs)
    ensures ParseJsonList(JsonList(xs)) == Some(xs)
  {
    var t := JsonList(xs);
    if xs != [] {
      ParseItemsJoined(xs);
      var inner := Join(QuoteAll(xs), ", ");
      assert inner[0] == '"';
      assert t[1..|t| - 1] == inner;
    }
  }

  /** Generated device paths never contain a double quote, filtered or not. */
  lemma DevicesQuoteFree(count: nat, settings: OsdSettings)
    requires DevicesFor(count, settings).Success?
    ensures QuoteFree(DevicesFor(count, settings).value)
  {
    var names := DeviceNames(count);
    forall i | 0 <= i < |names|
      ensures '"' !in names[i]
    {
      assert names[i] == "/dev/vd" + [(FirstDeviceChar + i) as char];
    }
    var reserved := if settings.osdScenario == Some(NonCollocated)
                    then Elements(settings.dedicatedDevices.value)
                    else {};
    RemoveReservedMembers(names, reserved);
    var devs := DevicesFor(count, settings).value;
    forall i | 0 <= i < |devs|
      ensures '"' !in devs[i]
    {
      assert devs[i] in devs;
    }
  }

  /** A string `json.dumps` writes as it is: printable ASCII, without a
      double quote or a backslash. */
  predicate JsonPlain(s: string)
  {
    forall c :: c in s ==> ' ' <= c <= '~' && c != '"' && c != '\\'
  }

  /** How many device letters stay printable ASCII: 'b' to '~'. */
  const PlainDevices: nat := 0x7F - FirstDeviceChar

  /** Up to 29 volumes every device path is written by `json.dumps` as it is,
      so the rendered list is the one the driver writes. */
  lemma DevicesJsonPlain(count: nat, settings: OsdSettings)
    requires count <= PlainDevices && DevicesFor(count, settings).Success?
    ensures forall d :: d in DevicesFor(count, settings).value ==> JsonPlain(d)
  {
    var names := DeviceNames(count);
    forall i | 0 <= i < |names|
      ensures JsonPlain(names[i])
    {
      assert names[i] == "/dev/vd" + [(FirstDeviceChar + i) as char];
    }
    forall d | d in DevicesFor(count, settings).value
      ensures JsonPlain(d)
    {
      var i :| 0 <= i < |names| && names[i] == d;
    }
  }

  /** The 30th device path ends in chr(127), which `json.dumps` escapes. */
  lemma ThirtiethDeviceEscaped()
    ensures !JsonPlain(DeviceName(PlainDevices))
  {
    assert DeviceName(PlainDevices)[7] == 0x7F as char;
    assert DeviceName(PlainDevices)[7] in DeviceName(PlainDevices);
  }

  /** Line 180 and lines 204-205: the OSD host line. The source's
      `' devices='` starts with a space, after the trailing space of the
      monitor-interface part. */
  function OsdHostLine(shortname: string, iface: string, devs: seq<string>, autoDiscovery: bool): (line: string)
    ensures var head := shortname + " monitor_interface=" + iface + " ";
            && |head| <= |line| && line[..|head|] == head
            && (autoDiscovery <==> line == head)
  {
    var monInterface := " monitor_interface=" + iface + " ";
    shortname + monInterface + (if !autoDiscovery then " devices='" + JsonList(devs) + "'" else "")
  }

  /** The OSD line carries the monitor interface and, unless auto-discovery is
      on, a device list that reads back as exactly the node's devices. */
  lemma OsdHostLineDevices(shortname: string, iface: string, devs: seq<string>, autoDiscovery: bool)
    requires QuoteFree(devs)
    ensures var head := shortname + " monitor_interface=" + iface + " ";
            var line := OsdHostLine(shortname, iface, devs, autoDiscovery);
            && |head| <= |line| && line[..|head|] == head
            && (autoDiscovery ==> line == head)
            && (!autoDiscovery ==>
                  && |line| >= |head| + 11
                  && line[|head|..|head| + 10] == " devices='"
                  && line[|line| - 1] == '\''
                  && ParseJsonList(line[|head| + 10..|line| - 1]) == Some(devs))
  {
    var head := shortname + " monitor_interface=" + iface + " ";
    var line := OsdHostLine(shortname, iface, devs, autoDiscovery);
    if !autoDiscovery {
      var json := JsonList(devs);
      assert line == head + " devices='" + json + "'";
      assert line[|head| + 10..|line| - 1] == json;
      JsonRoundTrip(devs);
    }
  }
}
