/**
 * The host telemetry route: the platform version read through a
 * per-platform command with a fallback, the external network addresses,
 * the uptime split into days, hours and minutes, and the CPU and memory
 * counts.
 */
module SystemRoute {
  import opened Wrappers
  import opened JsStrings
  import opened Host

  // ---------------------------------------------------------------------
  // Platform version
  // ---------------------------------------------------------------------

  const DarwinVersionCommand: string := "sw_vers -productVersion"
  const LinuxVersionCommand: string := "cat /etc/os-release | grep PRETTY_NAME | cut -d'=' -f2 | tr -d '\"'"
  const WindowsVersionCommand: string := "ver"

  /** What the version becomes when the platform's command fails: platform and release. */
  function FallbackVersion(platform: string, release: string): (v: string)
    ensures |v| == |platform| + 1 + |release| && v[|platform|] == ' '
    ensures v[..|platform|] == platform && v[|platform| + 1..] == release
  {
    platform + " " + release
  }

  /**
   * The platform version: on darwin `macOS ` and the trimmed output of
   * `sw_vers`, on linux the trimmed `PRETTY_NAME` pipeline output, on win32
   * the trimmed output of `ver`; the platform and release when that command
   * fails; and the empty string on any other platform, which runs nothing.
   * It is empty exactly on another platform or when the linux or win32
   * command answers with blank output.
   */
  function PlatformVersionOf(platform: string, release: string, exec: Exec): (version: string)
    ensures version == [] <==>
      || (platform != "darwin" && platform != "linux" && platform != "win32")
      || (platform == "linux" && exec(LinuxVersionCommand).Completed?
          && Trim(exec(LinuxVersionCommand).stdout) == [])
      || (platform == "win32" && exec(WindowsVersionCommand).Completed?
          && Trim(exec(WindowsVersionCommand).stdout) == [])
  {
    if platform == "darwin" then
      match exec(DarwinVersionCommand)
      case Completed(stdout, _) => "macOS " + Trim(stdout)
      case Failed(_, _) => FallbackVersion(platform, release)
    else if platform == "linux" then
      match exec(LinuxVersionCommand)
      case Completed(stdout, _) => Trim(stdout)
      case Failed(_, _) => FallbackVersion(platform, release)
    else if platform == "win32" then
      match exec(WindowsVersionCommand)
      case Completed(stdout, _) => Trim(stdout)
      case Failed(_, _) => FallbackVersion(platform, release)
    else ""
  }

  /**
   * The `try` block that assigns the platform version, with its `catch`
   * falling back to platform and release.
   */
  method PlatformVersion(platform: string, release: string, exec: Exec) returns (version: string)
    ensures version == PlatformVersionOf(platform, release, exec)
    ensures platform == "darwin" ==>
      (version == match exec(DarwinVersionCommand)
        case Completed(stdout, _) => "macOS " + Trim(stdout)
        case Failed(_, _) => FallbackVersion(platform, release))
    ensures platform == "linux" ==>
      (version == match exec(LinuxVersionCommand)
        case Completed(stdout, _) => Trim(stdout)
        case Failed(_, _) => FallbackVersion(platform, release))
    ensures platform == "win32" ==>
      (version == match exec(WindowsVersionCommand)
        case Completed(stdout, _) => Trim(stdout)
        case Failed(_, _) => FallbackVersion(platform, release))
    ensures platform != "darwin" && platform != "linux" && platform != "win32" ==> version == ""
  {
    version := "";
    if platform == "darwin" {
      match exec(DarwinVersionCommand)
      case Completed(stdout, _) =>
        version := "macOS " + Trim(stdout);
      case Failed(_, _) =>
        version := FallbackVersion(platform, release);
    } else if platform == "linux" {
      match exec(LinuxVersionCommand)
      case Completed(stdout, _) =>
        version := Trim(stdout);
      case Failed(_, _) =>
        version := FallbackVersion(platform, release);
    } else if platform == "win32" {
      match exec(WindowsVersionCommand)
      case Completed(stdout, _) =>
        version := Trim(stdout);
      case Failed(_, _) =>
        version := FallbackVersion(platform, release);
    }
  }

  // ---------------------------------------------------------------------
  // Network interfaces
  // ---------------------------------------------------------------------

  /** One reported address; `family` is sent as the field `type`. */
  datatype NetworkInterface = NetworkInterface(name: string, address: string, family: string)

  /** The entry reported for address `a` of interface `name`. */
  function Report(name: string, a: InterfaceAddress): NetworkInterface {
    NetworkInterface(name, a.address, a.family)
  }

  /** The non-internal addresses of one interface, in their order. */
  function ExternalOf(name: string, addresses: seq<InterfaceAddress>): seq<NetworkInterface> {
    if addresses == [] then []
    else
      var last := addresses[|addresses| - 1];
      ExternalOf(name, addresses[..|addresses| - 1]) + if last.internal then [] else [Report(name, last)]
  }

  /** The addresses an entry contributes: none when its list is undefined. */
  function ExternalOfEntry(entry: InterfaceEntry): seq<NetworkInterface> {
    if entry.addresses.Some? then ExternalOf(entry.name, entry.addresses.value) else []
  }

  /** The non-internal addresses of all interfaces, interface by interface. */
  function ExternalAddresses(entries: seq<InterfaceEntry>): seq<NetworkInterface> {
    if entries == [] then []
    else ExternalAddresses(entries[..|entries| - 1]) + ExternalOfEntry(entries[|entries| - 1])
  }

  /**
   * The nested loops over `Object.entries(os.networkInterfaces())`: one
   * entry pushed per non-internal address.
   */
  method CollectNetworkInterfaces(entries: seq<InterfaceEntry>) returns (list: seq<NetworkInterface>)
    ensures list == ExternalAddresses(entries)
  {
    list := [];
    for i := 0 to |entries|
      invariant list == ExternalAddresses(entries[..i])
    {
      var entry := entries[i];
      ghost var before := list;
      if entry.addresses.Some? {
        var addresses := entry.addresses.value;
        for j := 0 to |addresses|
          invariant list == before + ExternalOf(entry.name, addresses[..j])
        {
          ExternalOfSnoc(entry.name, addresses, j);
          if !addresses[j].internal {
            list := list + [Report(entry.name, addresses[j])];
          }
        }
        assert addresses[..|addresses|] == addresses;
      }
      assert list == before + ExternalOfEntry(entry);
      assert entries[..i + 1] == entries[..i] + [entry];
      ExternalAddressesSnoc(entries[..i], entry);
    }
    assert entries[..|entries|] == entries;
  }

  /** One more address adds itself at the end when it is not internal. */
  lemma ExternalOfSnoc(name: string, addresses: seq<InterfaceAddress>, j: nat)
    requires j < |addresses|
    ensures ExternalOf(name, addresses[..j + 1]) ==
      ExternalOf(name, addresses[..j]) + if addresses[j].internal then [] else [Report(name, addresses[j])]
  {
    assert addresses[..j + 1][..j] == addresses[..j];
  }

  /** Address `j` of interface `i` exists and is not internal. */
  ghost predicate IsExternalAt(entries: seq<InterfaceEntry>, i: int, j: int) {
    && 0 <= i < |entries|
    && entries[i].addresses.Some?
    && 0 <= j < |entries[i].addresses.value|
    && !entries[i].addresses.value[j].internal
  }

  lemma {:induction false} ExternalOfMembership(name: string, addresses: seq<InterfaceAddress>, e: NetworkInterface)
    ensures e in ExternalOf(name, addresses) <==>
      exists j :: 0 <= j < |addresses| && !addresses[j].internal && e == Report(name, addresses[j])
    decreases |addresses|
  {
    if addresses != [] {
      var init := addresses[..|addresses| - 1];
      ExternalOfMembership(name, init, e);
      if e in ExternalOf(name, addresses) && e !in ExternalOf(name, init) {
        assert e == Report(name, addresses[|addresses| - 1]);
      }
      if exists j :: 0 <= j < |addresses| && !addresses[j].internal && e == Report(name, addresses[j]) {
        var j :| 0 <= j < |addresses| && !addresses[j].internal && e == Report(name, addresses[j]);
        if j < |addresses| - 1 {
          assert addresses[j] == init[j];
        }
      }
    }
  }

  /**
   * The list holds exactly the non-internal addresses, each with the name
   * of its interface and its own address and family.
   */
  lemma ExternalAddressesMembership(entries: seq<InterfaceEntry>, e: NetworkInterface)
    ensures e in ExternalAddresses(entries) <==>
      exists i, j :: IsExternalAt(entries, i, j) && e == Report(entries[i].name, entries[i].addresses.value[j])
  {
    if e in ExternalAddresses(entries) {
      ExternalAddressesSound(entries, e);
    }
    if exists i, j :: IsExternalAt(entries, i, j) && e == Report(entries[i].name, entries[i].addresses.value[j]) {
      var i, j :| IsExternalAt(entries, i, j) && e == Report(entries[i].name, entries[i].addresses.value[j]);
      ExternalAddressesComplete(entries, i, j);
    }
  }

  /** Every reported address comes from a non-internal address of some interface. */
  lemma {:induction false} ExternalAddressesSound(entries: seq<InterfaceEntry>, e: NetworkInterface)
    requires e in ExternalAddresses(entries)
    ensures exists i, j :: IsExternalAt(entries, i, j) && e == Report(entries[i].name, entries[i].addresses.value[j])
    decreases |entries|
  {
    var n := |entries| - 1;
    var init := entries[..n];
    var last := entries[n];
    if e in ExternalAddresses(init) {
      ExternalAddressesSound(init, e);
      var i, j :| IsExternalAt(init, i, j) && e == Report(init[i].name, init[i].addresses.value[j]);
      assert init[i] == entries[i];
      assert IsExternalAt(entries, i, j);
    } else {
      ExternalOfMembership(last.name, last.addresses.value, e);
      var j :| 0 <= j < |last.addresses.value| && !last.addresses.value[j].internal
        && e == Report(last.name, last.addresses.value[j]);
      assert IsExternalAt(entries, n, j);
    }
  }

  /** Every non-internal address of every interface is reported. */
  lemma {:induction false} ExternalAddressesComplete(entries: seq<InterfaceEntry>, i: int, j: int)
    requires IsExternalAt(entries, i, j)
    ensures Report(entries[i].name, entries[i].addresses.value[j]) in ExternalAddresses(entries)
    decreases |entries|
  {
    var n := |entries| - 1;
    var init := entries[..n];
    var last := entries[n];
    if i < n {
      assert init[i] == entries[i];
      ExternalAddressesComplete(init, i, j);
    } else {
      ExternalOfMembership(last.name, last.addresses.value, Report(last.name, last.addresses.value[j]));
    }
  }

  /**
   * Interfaces contribute in their order: the list for two runs of
   * interfaces is the list for the first followed by the list for the second.
   */
  lemma {:induction false} ExternalAddressesAppend(a: seq<InterfaceEntry>, b: seq<InterfaceEntry>)
    ensures ExternalAddresses(a + b) == ExternalAddresses(a) + ExternalAddresses(b)
    decreases |b|
  {
    if b == [] {
      assert a + b == a;
    } else {
      var n := |b| - 1;
      var init := b[..n];
      var last := b[n];
      assert b == init + [last];
      assert a + b == (a + init) + [last];
      calc {
        ExternalAddresses(a + b);
        { ExternalAddressesSnoc(a + init, last); }
        ExternalAddresses(a + init) + ExternalOfEntry(last);
        { ExternalAddressesAppend(a, init); }
        ExternalAddresses(a) + ExternalAddresses(init) + ExternalOfEntry(last);
        { ExternalAddressesSnoc(init, last); }
        ExternalAddresses(a) + ExternalAddresses(b);
      }
    }
  }

  /** One more interface adds its own addresses at the end. */
  lemma ExternalAddressesSnoc(entries: seq<InterfaceEntry>, entry: InterfaceEntry)
    ensures ExternalAddresses(entries + [entry]) == ExternalAddresses(entries) + ExternalOfEntry(entry)
  {
    assert (entries + [entry])[..|entries|] == entries;
  }

  // ---------------------------------------------------------------------
  // Uptime
  // ---------------------------------------------------------------------

  datatype Uptime = Uptime(days: nat, hours: nat, minutes: nat)

  /** The seconds a split stands for. */
  function UptimeSeconds(u: Uptime): nat {
    u.days * 86400 + u.hours * 3600 + u.minutes * 60
  }

  /**
   * `Math.floor(uptime / 86400)`, `Math.floor((uptime % 86400) / 3600)` and
   * `Math.floor((uptime % 3600) / 60)` for a whole, non-negative uptime.
   */
  function SplitUptime(seconds: nat): (u: Uptime)
    ensures u.hours < 24 && u.minutes < 60
  {
    Uptime(seconds / 86400, (seconds % 86400) / 3600, (seconds % 3600) / 60)
  }

  /** Hours and minutes are in range, and the split drops less than a minute. */
  lemma SplitUptimeBounds(seconds: nat)
    ensures var u := SplitUptime(seconds);
      && u.hours < 24 && u.minutes < 60
      && UptimeSeconds(u) <= seconds < UptimeSeconds(u) + 60
  {
    var d := seconds / 86400;
    var r := seconds % 86400;
    assert seconds == d * 86400 + r;
    var h := r / 3600;
    var rm := r % 3600;
    assert r == h * 3600 + rm;
    assert seconds % 3600 == rm by {
      assert seconds == (d * 24 + h) * 3600 + rm;
    }
  }

  /** A split with hours below 24 and minutes below 60, plus under a minute, splits back to itself. */
  lemma SplitUptimeRoundTrip(u: Uptime, extra: nat)
    requires u.hours < 24 && u.minutes < 60 && extra < 60
    ensures SplitUptime(UptimeSeconds(u) + extra) == u
  {
    var seconds := UptimeSeconds(u) + extra;
    var r := u.hours * 3600 + u.minutes * 60 + extra;
    assert r < 86400;
    assert seconds == u.days * 86400 + r;
    assert seconds / 86400 == u.days && seconds % 86400 == r;
    var rm := u.minutes * 60 + extra;
    assert rm < 3600;
    assert seconds == (u.days * 24 + u.hours) * 3600 + rm;
    assert seconds % 3600 == rm;
    assert r / 3600 == u.hours;
    assert rm / 60 == u.minutes;
  }

  // ---------------------------------------------------------------------
  // getSystemInfo
  // ---------------------------------------------------------------------

  /** The route's answer, with memory kept in bytes. */
  datatype HostInfo = HostInfo(
    hostname: string,
    platform: string,
    platformVersion: string,
    arch: string,
    kernelVersion: string,
    cpuModel: Option<string>,
    cpuCores: nat,
    totalMemBytes: nat,
    freeMemBytes: nat,
    usedMemBytes: int,
    uptime: Uptime,
    networkInterfaces: seq<NetworkInterface>)

  /**
   * `getSystemInfo`: the snapshot's values, the platform version, the
   * external addresses, the uptime split, the first CPU's model, the CPU
   * count and the used memory.
   */
  method GetSystemInfo(os: OsSnapshot, exec: Exec) returns (info: HostInfo)
    ensures info.hostname == os.hostname && info.platform == os.platform && info.arch == os.arch
    ensures info.kernelVersion == os.release
    ensures info.cpuCores == |os.cpus|
    ensures info.cpuModel.None? <==> os.cpus == []
    ensures info.cpuModel.Some? ==> info.cpuModel.value == os.cpus[0].model
    ensures info.totalMemBytes == os.totalMem && info.freeMemBytes == os.freeMem
    ensures info.usedMemBytes + info.freeMemBytes == info.totalMemBytes
    ensures info.uptime.hours < 24 && info.uptime.minutes < 60
    ensures UptimeSeconds(info.uptime) <= os.uptime < UptimeSeconds(info.uptime) + 60
    ensures info.networkInterfaces == ExternalAddresses(os.interfaces)
    ensures info.platformVersion == PlatformVersionOf(os.platform, os.release, exec)
  {
    var usedMem := os.totalMem - os.freeMem;
    var platformVersion := PlatformVersion(os.platform, os.release, exec);
    var networkInterfaces := CollectNetworkInterfaces(os.interfaces);
    SplitUptimeBounds(os.uptime);
    info := HostInfo(os.hostname, os.platform, platformVersion, os.arch, os.release,
      PrimaryCpuModel(os.cpus), |os.cpus|, os.totalMem, os.freeMem, usedMem,
      SplitUptime(os.uptime), networkInterfaces);
  }
}
