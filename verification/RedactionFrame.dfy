/** What redaction leaves alone: the dump of a redacted report is the original dump with a few places rewritten. */
module RedactionFrame {
  import opened Outcomes
  import opened Json
  import opened Diff
  import opened DiffLaws
  import opened Redaction

  /** What a level writes at a place of the dump, if it writes anything there. */
  function Replacement(p: Payload, level: PrivacyLevel, path: Path): Option<Json> {
    match p
    case ProbeReport(_) =>
      if path == [Key("privacy_level")] then Some(Str(Label(level)))
      else if level.Private? then None
      else if path == [Key("system"), Key("host")] then Some(Null)
      else if path == [Key("system"), Key("os_version")] && level.Public? then Some(Null)
      else if |path| == 3 && path[0] == Key("disks") && path[1].Index? && path[2] in {Key("device"), Key("mount_point")} then Some(Null)
      else if |path| == 4 && path[0] == Key("gpu") && path[1] == Key("devices") && path[2].Index?
           && path[3] in {Key("pci_bus_id"), Key("serial_number")} then Some(Null)
      else None
    case ReadinessReport(_, _, _, _) =>
      if path == [Key("environment"), Key("privacy_level")] then Some(Str(Label(level))) else None
    case DoctorReport(_, _, _, _, _, _) =>
      if !level.Private? && path in {[Key("network"), Key("target")], [Key("clock"), Key("server")]} then Some(Null) else None
    case BenchmarkReport(_, _, _) => None
  }

  /** The value at this place of a dump with every replacement made. */
  function Rewrite(j: Json, p: Payload, level: PrivacyLevel, path: Path): Json
    decreases j
  {
    match Replacement(p, level, path)
    case Some(v) => v
    case None =>
      match j
      case Obj(m) => Obj(map k | k in m :: Rewrite(m[k], p, level, path + [Key(k)]))
      case Arr(items) => Arr(seq(|items|, i requires 0 <= i < |items| => Rewrite(items[i], p, level, path + [Index(i)])))
      case _ => j
  }

  /** Nothing is written at or below this place. */
  ghost predicate Quiet(p: Payload, level: PrivacyLevel, path: Path) {
    forall q: Path :: path <= q ==> Replacement(p, level, q) == None
  }

  lemma {:induction false} QuietIsKept(j: Json, p: Payload, level: PrivacyLevel, path: Path)
    requires Quiet(p, level, path)
    ensures Rewrite(j, p, level, path) == j
    decreases j
  {
    hide Replacement;
    match j
    case Obj(m) =>
      forall k | k in m ensures Rewrite(m[k], p, level, path + [Key(k)]) == m[k] {
        QuietBelow(p, level, path, Key(k));
        QuietIsKept(m[k], p, level, path + [Key(k)]);
      }
      assert Rewrite(j, p, level, path).fields == m;
    case Arr(items) =>
      forall i | 0 <= i < |items| ensures Rewrite(items[i], p, level, path + [Index(i)]) == items[i] {
        QuietBelow(p, level, path, Index(i));
        QuietIsKept(items[i], p, level, path + [Index(i)]);
      }
      assert Rewrite(j, p, level, path).items == items;
    case _ =>
  }

  lemma QuietBelow(p: Payload, level: PrivacyLevel, path: Path, s: Segment)
    requires Quiet(p, level, path)
    ensures Quiet(p, level, path + [s])
  {
    hide Replacement;
    forall q: Path | path + [s] <= q ensures Replacement(p, level, q) == None {
      assert path <= q;
    }
  }

  /** Rewriting fields over untouched ones. */
  lemma RewriteFields(others: Fields, x: Fields, y: Fields, p: Payload, level: PrivacyLevel, path: Path)
    requires Replacement(p, level, path) == None && x.Keys == y.Keys
    requires forall k :: k in x ==> Rewrite(x[k], p, level, path + [Key(k)]) == y[k]
    requires forall k :: k in others && k !in x ==> Quiet(p, level, path + [Key(k)])
    ensures Rewrite(Obj(others + x), p, level, path) == Obj(others + y)
  {
    hide Replacement, Quiet;
    var all := others + x;
    forall k | k in all ensures Rewrite(all[k], p, level, path + [Key(k)]) == (others + y)[k] {
      if k !in x { QuietIsKept(others[k], p, level, path + [Key(k)]); }
    }
    assert Rewrite(Obj(all), p, level, path).fields == others + y;
  }

  lemma RewriteItems(x: seq<Json>, y: seq<Json>, p: Payload, level: PrivacyLevel, path: Path)
    requires Replacement(p, level, path) == None && |x| == |y|
    requires forall i :: 0 <= i < |x| ==> Rewrite(x[i], p, level, path + [Index(i)]) == y[i]
    ensures Rewrite(Arr(x), p, level, path) == Arr(y)
  {
    hide Replacement;
    assert Rewrite(Arr(x), p, level, path).items == y;
  }

  // ----- Probes -----

  lemma ProbeQuiet(probe: Probe, level: PrivacyLevel, path: Path)
    requires path != []
    requires path[0] !in {Key("privacy_level"), Key("system"), Key("disks"), Key("gpu")}
          || (path[0] == Key("system") && |path| > 1 && path[1] !in {Key("host"), Key("os_version")})
          || (path[0] == Key("system") && |path| > 1 && path[1] == Key("os_version") && !level.Public?)
          || (path[0] == Key("disks") && |path| > 2 && path[2] !in {Key("device"), Key("mount_point")})
          || (path[0] == Key("gpu") && |path| > 1 && path[1] != Key("devices"))
          || (path[0] == Key("gpu") && |path| > 3 && path[3] !in {Key("pci_bus_id"), Key("serial_number")})
          || (level.Private? && path[0] != Key("privacy_level"))
    ensures Quiet(ProbeReport(probe), level, path)
  {
    forall q: Path | path <= q ensures Replacement(ProbeReport(probe), level, q) == None {
      assert q[0] == path[0];
      if |path| > 1 { assert q[1] == path[1]; }
      if |path| > 2 { assert q[2] == path[2]; }
      if |path| > 3 { assert q[3] == path[3]; }
    }
  }

  lemma SystemFieldRewrites(probe: Probe, level: PrivacyLevel, k: string)
    requires k in {"os_family", "architecture", "os_version", "host"}
    ensures var x, y := DumpSystem(probe.system).fields, DumpSystem(RedactProbe(probe, level).system).fields;
      k in x && k in y && Rewrite(x[k], ProbeReport(probe), level, [Key("system"), Key(k)]) == y[k]
  {
    hide DumpHost, DumpOption;
    NullDumps();
    if k !in {"host", "os_version"} || level.Private? || (k == "os_version" && !level.Public?) {
      ProbeQuiet(probe, level, [Key("system"), Key(k)]);
      QuietIsKept(DumpSystem(probe.system).fields[k], ProbeReport(probe), level, [Key("system"), Key(k)]);
    }
  }

  lemma NullDumps()
    ensures DumpHost(None) == Null && DumpOption(None) == Null
  {
  }

  lemma SystemShape(s: System)
    ensures DumpSystem(s).Obj? && DumpSystem(s).fields.Keys == {"os_family", "architecture", "os_version", "host"}
  {
  }

  lemma ContainersStay(probe: Probe, level: PrivacyLevel)
    ensures Replacement(ProbeReport(probe), level, []) == None && Replacement(ProbeReport(probe), level, [Key("system")]) == None
  {
  }

  lemma SystemRewrites(probe: Probe, level: PrivacyLevel)
    ensures Rewrite(DumpSystem(probe.system), ProbeReport(probe), level, [Key("system")])
         == DumpSystem(RedactProbe(probe, level).system)
  {
    hide DumpSystem, RedactProbe, Rewrite, Replacement;
    SystemShape(probe.system);
    SystemShape(RedactProbe(probe, level).system);
    var x, y := DumpSystem(probe.system).fields, DumpSystem(RedactProbe(probe, level).system).fields;
    ContainersStay(probe, level);
    forall k | k in x ensures Rewrite(x[k], ProbeReport(probe), level, [Key("system")] + [Key(k)]) == y[k] {
      assert [Key("system")] + [Key(k)] == [Key("system"), Key(k)];
      SystemFieldRewrites(probe, level, k);
    }
    RewriteFields(map[], x, y, ProbeReport(probe), level, [Key("system")]);
    assert map[] + x == x && map[] + y == y;
  }

  lemma DiskRewrites(probe: Probe, level: PrivacyLevel, i: nat)
    requires i < |probe.disks|
    ensures Rewrite(DumpDisk(probe.disks[i]), ProbeReport(probe), level, [Key("disks"), Index(i)])
         == DumpDisk(RedactProbe(probe, level).disks[i])
  {
    var p, path := ProbeReport(probe), [Key("disks"), Index(i)];
    var d, e := probe.disks[i], RedactProbe(probe, level).disks[i];
    var x: Fields := map["device" := DumpOption(d.device), "mount_point" := DumpOption(d.mountPoint)];
    var y: Fields := map["device" := DumpOption(e.device), "mount_point" := DumpOption(e.mountPoint)];
    forall k | k in x ensures Rewrite(x[k], p, level, path + [Key(k)]) == y[k] {
      assert path + [Key(k)] == [Key("disks"), Index(i), Key(k)];
      if level.Private? {
        ProbeQuiet(probe, level, path + [Key(k)]);
        QuietIsKept(x[k], p, level, path + [Key(k)]);
      }
    }
    forall k | k in d.others && k !in x ensures Quiet(p, level, path + [Key(k)]) {
      ProbeQuiet(probe, level, path + [Key(k)]);
    }
    RewriteFields(d.others, x, y, p, level, path);
  }

  lemma DeviceRewrites(probe: Probe, level: PrivacyLevel, i: nat)
    requires i < |probe.gpu.devices|
    ensures Rewrite(DumpDevice(probe.gpu.devices[i]), ProbeReport(probe), level, [Key("gpu"), Key("devices"), Index(i)])
         == DumpDevice(RedactProbe(probe, level).gpu.devices[i])
  {
    var p, path := ProbeReport(probe), [Key("gpu"), Key("devices"), Index(i)];
    var d, e := probe.gpu.devices[i], RedactProbe(probe, level).gpu.devices[i];
    var x: Fields := map["pci_bus_id" := DumpOption(d.pciBusId), "serial_number" := DumpOption(d.serialNumber)];
    var y: Fields := map["pci_bus_id" := DumpOption(e.pciBusId), "serial_number" := DumpOption(e.serialNumber)];
    forall k | k in x ensures Rewrite(x[k], p, level, path + [Key(k)]) == y[k] {
      assert path + [Key(k)] == [Key("gpu"), Key("devices"), Index(i), Key(k)];
      if level.Private? {
        ProbeQuiet(probe, level, path + [Key(k)]);
        QuietIsKept(x[k], p, level, path + [Key(k)]);
      }
    }
    forall k | k in d.others && k !in x ensures Quiet(p, level, path + [Key(k)]) {
      ProbeQuiet(probe, level, path + [Key(k)]);
    }
    RewriteFields(d.others, x, y, p, level, path);
  }

  lemma DisksRewrite(probe: Probe, level: PrivacyLevel)
    ensures Rewrite(Arr(DumpDisks(probe.disks)), ProbeReport(probe), level, [Key("disks")])
         == Arr(DumpDisks(RedactProbe(probe, level).disks))
  {
    hide DumpDisk;
    var p, path := ProbeReport(probe), [Key("disks")];
    var x, y := DumpDisks(probe.disks), DumpDisks(RedactProbe(probe, level).disks);
    forall i | 0 <= i < |x| ensures Rewrite(x[i], p, level, path + [Index(i)]) == y[i] {
      assert path + [Index(i)] == [Key("disks"), Index(i)];
      DiskRewrites(probe, level, i);
    }
    RewriteItems(x, y, p, level, path);
  }

  lemma GpuRewrites(probe: Probe, level: PrivacyLevel)
    ensures Rewrite(DumpGpu(probe.gpu), ProbeReport(probe), level, [Key("gpu")]) == DumpGpu(RedactProbe(probe, level).gpu)
  {
    hide DumpDevice;
    var p, path := ProbeReport(probe), [Key("gpu"), Key("devices")];
    var x, y := DumpDevices(probe.gpu.devices), DumpDevices(RedactProbe(probe, level).gpu.devices);
    forall i | 0 <= i < |x| ensures Rewrite(x[i], p, level, path + [Index(i)]) == y[i] {
      assert path + [Index(i)] == [Key("gpu"), Key("devices"), Index(i)];
      DeviceRewrites(probe, level, i);
    }
    RewriteItems(x, y, p, level, path);
    assert [Key("gpu")] + [Key("devices")] == path;
    forall k | k in probe.gpu.others && k !in {"devices"} ensures Quiet(p, level, [Key("gpu")] + [Key(k)]) {
      ProbeQuiet(probe, level, [Key("gpu")] + [Key(k)]);
    }
    RewriteFields(probe.gpu.others, map["devices" := Arr(x)], map["devices" := Arr(y)], p, level, [Key("gpu")]);
  }

  lemma ProbeFieldRewrites(probe: Probe, level: PrivacyLevel, k: string)
    requires k in ProbeFields(probe)
    ensures k in ProbeFields(RedactProbe(probe, level))
    ensures Rewrite(ProbeFields(probe)[k], ProbeReport(probe), level, [Key(k)]) == ProbeFields(RedactProbe(probe, level))[k]
  {
    hide DumpSystem, DumpDisks, DumpGpu;
    SystemRewrites(probe, level);
    DisksRewrite(probe, level);
    GpuRewrites(probe, level);
    if k == "tool_version" {
      ProbeQuiet(probe, level, [Key(k)]);
      QuietIsKept(Str(probe.toolVersion), ProbeReport(probe), level, [Key(k)]);
    }
  }

  lemma ProbeRewrites(probe: Probe, level: PrivacyLevel)
    ensures Rewrite(DumpProbe(probe), ProbeReport(probe), level, []) == DumpProbe(RedactProbe(probe, level))
  {
    var p := ProbeReport(probe);
    var x, y := ProbeFields(probe), ProbeFields(RedactProbe(probe, level));
    assert x.Keys == {"privacy_level", "system", "disks", "gpu", "tool_version"} == y.Keys;
    assert Replacement(p, level, []) == None && RedactProbe(probe, level).others == probe.others;
    hide ProbeFields, RedactProbe, Rewrite, Replacement, Quiet;
    forall k | k in x ensures Rewrite(x[k], p, level, [] + [Key(k)]) == y[k] {
      assert [] + [Key(k)] == [Key(k)];
      ProbeFieldRewrites(probe, level, k);
    }
    forall k | k in probe.others && k !in x ensures Quiet(p, level, [] + [Key(k)]) {
      ProbeQuiet(probe, level, [] + [Key(k)]);
    }
    RewriteFields(probe.others, x, y, p, level, []);
  }

  // ----- The other reports -----

  lemma ReadinessRewrites(p: Payload, level: PrivacyLevel)
    requires p.ReadinessReport?
    ensures Rewrite(Dump(p), p, level, []) == Dump(Transform(p, level))
  {
    var x, y := ReadinessFields(p), ReadinessFields(Transform(p, level));
    assert x.Keys == {"profile", "environment", "tool_version"} == y.Keys;
    forall k | k in x ensures Rewrite(x[k], p, level, [] + [Key(k)]) == y[k] {
      assert [] + [Key(k)] == [Key(k)];
      if k == "environment" {
        EnvironmentRewrites(p, level);
      } else {
        ReadinessQuiet(p, level, [Key(k)]);
        QuietIsKept(x[k], p, level, [Key(k)]);
      }
    }
    forall k | k in p.others && k !in x ensures Quiet(p, level, [] + [Key(k)]) {
      ReadinessQuiet(p, level, [] + [Key(k)]);
    }
    RewriteFields(p.others, x, y, p, level, []);
  }

  lemma ReadinessQuiet(p: Payload, level: PrivacyLevel, path: Path)
    requires p.ReadinessReport? && path != []
    requires path[0] != Key("environment") || (|path| > 1 && path[1] != Key("privacy_level"))
    ensures Quiet(p, level, path)
  {
    forall q: Path | path <= q ensures Replacement(p, level, q) == None {
      assert q[0] == path[0];
      if |path| > 1 { assert q[1] == path[1]; }
    }
  }

  lemma EnvironmentRewrites(p: Payload, level: PrivacyLevel)
    requires p.ReadinessReport?
    ensures Rewrite(DumpEnvironment(p.environment), p, level, [Key("environment")])
         == DumpEnvironment(p.environment.(privacyLevel := level))
  {
    var x, y := DumpEnvironment(p.environment).fields, DumpEnvironment(p.environment.(privacyLevel := level)).fields;
    forall k | k in x ensures Rewrite(x[k], p, level, [Key("environment")] + [Key(k)]) == y[k] {
      assert [Key("environment")] + [Key(k)] == [Key("environment"), Key(k)];
      if k != "privacy_level" {
        ReadinessQuiet(p, level, [Key("environment"), Key(k)]);
        QuietIsKept(x[k], p, level, [Key("environment"), Key(k)]);
      }
    }
    RewriteFields(map[], x, y, p, level, [Key("environment")]);
    assert map[] + x == x && map[] + y == y;
  }

  lemma DoctorQuiet(p: Payload, level: PrivacyLevel, path: Path)
    requires p.DoctorReport? && path != []
    requires level.Private? || path[0] !in {Key("network"), Key("clock")}
          || (path[0] == Key("network") && |path| > 1 && path[1] != Key("target"))
          || (path[0] == Key("clock") && |path| > 1 && path[1] != Key("server"))
    ensures Quiet(p, level, path)
  {
    forall q: Path | path <= q ensures Replacement(p, level, q) == None {
      assert q[0] == path[0];
      if |path| > 1 { assert q[1] == path[1]; }
    }
  }

  /** One part of a doctor report: untouched fields and one that sharing blanks. */
  lemma PartRewrites(p: Payload, level: PrivacyLevel, part: string, name: string, others: Fields, value: Option<string>)
    requires p.DoctorReport? && (part, name) in {("network", "target"), ("clock", "server")}
    ensures Rewrite(Obj(others + map[name := DumpOption(value)]), p, level, [Key(part)])
         == Obj(others + map[name := DumpOption(if level.Private? then value else None)])
  {
    var x: Fields := map[name := DumpOption(value)];
    var y: Fields := map[name := DumpOption(if level.Private? then value else None)];
    assert [Key(part)] + [Key(name)] == [Key(part), Key(name)];
    if level.Private? {
      DoctorQuiet(p, level, [Key(part), Key(name)]);
      QuietIsKept(DumpOption(value), p, level, [Key(part), Key(name)]);
    }
    forall k | k in others && k !in x ensures Quiet(p, level, [Key(part)] + [Key(k)]) {
      DoctorQuiet(p, level, [Key(part)] + [Key(k)]);
    }
    RewriteFields(others, x, y, p, level, [Key(part)]);
  }

  lemma DoctorFieldRewrites(p: Payload, level: PrivacyLevel, k: string)
    requires p.DoctorReport? && k in DoctorFields(p)
    ensures k in DoctorFields(Transform(p, level))
    ensures Rewrite(DoctorFields(p)[k], p, level, [Key(k)]) == DoctorFields(Transform(p, level))[k]
  {
    hide DumpOption, Rewrite;
    if k == "network" {
      PartRewrites(p, level, "network", "target", p.networkOthers, p.target);
    } else if k == "clock" {
      PartRewrites(p, level, "clock", "server", p.clockOthers, p.server);
    } else {
      DoctorQuiet(p, level, [Key(k)]);
      QuietIsKept(Str(p.toolVersion), p, level, [Key(k)]);
    }
  }

  lemma DoctorShape(p: Payload, level: PrivacyLevel)
    requires p.DoctorReport?
    ensures Transform(p, level).DoctorReport? && Transform(p, level).others == p.others
    ensures DoctorFields(p).Keys == {"network", "clock", "tool_version"} == DoctorFields(Transform(p, level)).Keys
    ensures Replacement(p, level, []) == None
  {
  }

  lemma DoctorRewrites(p: Payload, level: PrivacyLevel)
    requires p.DoctorReport?
    ensures Rewrite(Dump(p), p, level, []) == Dump(Transform(p, level))
  {
    hide DoctorFields, Transform, Rewrite, Replacement, Quiet;
    DoctorShape(p, level);
    var x, y := DoctorFields(p), DoctorFields(Transform(p, level));
    forall k | k in x ensures Rewrite(x[k], p, level, [] + [Key(k)]) == y[k] {
      assert [] + [Key(k)] == [Key(k)];
      DoctorFieldRewrites(p, level, k);
    }
    forall k | k in p.others && k !in x ensures Quiet(p, level, [] + [Key(k)]) {
      DoctorQuiet(p, level, [] + [Key(k)]);
    }
    RewriteFields(p.others, x, y, p, level, []);
  }

  // ----- The frame -----

  /** Redacting a report rewrites these places of its dump and leaves every other value as it was: the privacy label at
      any level, the fields a shared level blanks, and nothing at all in a benchmark report. */
  lemma RedactionRewrites(p: Payload, level: PrivacyLevel)
    ensures Dump(Transform(p, level)) == Rewrite(Dump(p), p, level, [])
  {
    match p
    case ProbeReport(probe) => ProbeRewrites(probe, level);
    case ReadinessReport(_, _, _, _) => ReadinessRewrites(p, level);
    case DoctorReport(_, _, _, _, _, _) => DoctorRewrites(p, level);
    case BenchmarkReport(_, _, _) =>
      assert forall q: Path :: [] <= q ==> Replacement(p, level, q) == None;
      QuietIsKept(Dump(p), p, level, []);
  }

  /** A benchmark report is exported as it is, at every level, and a doctor report when it is private. */
  lemma UnchangedReports(p: Payload, level: PrivacyLevel)
    ensures p.BenchmarkReport? || (p.DoctorReport? && level.Private?) ==> Transform(p, level) == p
  {
  }

  // ----- What a dump tells -----

  function Sub(j: Json, k: string): Json {
    if j.Obj? && k in j.fields then j.fields[k] else Null
  }

  function Text(s: Option<string>): Json {
    if s.Some? then Str(s.value) else Null
  }

  /** Every field of a probe is in its dump, under its own name. */
  lemma ProbeDumpTells(p: Probe)
    ensures var j := Dump(ProbeReport(p));
      && Sub(j, "privacy_level") == Str(if p.privacyLevel.Private? then "private" else if p.privacyLevel.Support? then "support" else "public")
      && Sub(j, "tool_version") == Str(p.toolVersion)
      && Sub(Sub(j, "system"), "os_family") == Str(p.system.osFamily)
      && Sub(Sub(j, "system"), "architecture") == Str(p.system.architecture)
      && Sub(Sub(j, "system"), "os_version") == Text(p.system.osVersion)
    ensures forall k :: k in p.others && k !in {"privacy_level", "system", "disks", "gpu", "tool_version"} ==>
      Sub(Dump(ProbeReport(p)), k) == p.others[k]
  {
    hide DumpDisk, DumpDevice, DumpHost, DumpGpu, DumpDisks;
  }

  lemma HostDumpTells(p: Probe)
    ensures p.system.host.Some? ==>
      var host, j := p.system.host.value, Sub(Sub(Dump(ProbeReport(p)), "system"), "host");
      && Sub(j, "hostname") == Text(host.hostname) && Sub(j, "user_name") == Text(host.userName)
      && Sub(j, "ip_addresses").Arr? && |Sub(j, "ip_addresses").items| == |host.ipAddresses|
      && forall i :: 0 <= i < |host.ipAddresses| ==> Sub(j, "ip_addresses").items[i] == Str(host.ipAddresses[i])
  {
    hide DumpDisk, DumpDevice, DumpGpu, DumpDisks;
  }

  lemma ProbePartsTell(p: Probe)
    ensures var disks, gpu := Sub(Dump(ProbeReport(p)), "disks"), Sub(Dump(ProbeReport(p)), "gpu");
      && disks.Arr? && |disks.items| == |p.disks|
      && Sub(gpu, "devices").Arr? && |Sub(gpu, "devices").items| == |p.gpu.devices|
      && (forall i :: 0 <= i < |p.disks| ==> DiskTells(disks.items[i], p.disks[i]))
      && (forall i :: 0 <= i < |p.gpu.devices| ==> DeviceTells(Sub(gpu, "devices").items[i], p.gpu.devices[i]))
      && (forall k :: k in p.gpu.others && k != "devices" ==> Sub(gpu, k) == p.gpu.others[k])
  {
    hide DumpDisk, DumpDevice, DumpSystem, DiskTells, DeviceTells;
    forall i | 0 <= i < |p.disks| ensures DiskTells(DumpDisk(p.disks[i]), p.disks[i]) { DumpedDisk(p.disks[i]); }
    forall i | 0 <= i < |p.gpu.devices| ensures DeviceTells(DumpDevice(p.gpu.devices[i]), p.gpu.devices[i]) {
      DumpedDevice(p.gpu.devices[i]);
    }
  }

  predicate DiskTells(j: Json, d: Disk) {
    && Sub(j, "device") == Text(d.device) && Sub(j, "mount_point") == Text(d.mountPoint)
    && forall k :: k in d.others && k !in {"device", "mount_point"} ==> Sub(j, k) == d.others[k]
  }

  predicate DeviceTells(j: Json, d: Device) {
    && Sub(j, "pci_bus_id") == Text(d.pciBusId) && Sub(j, "serial_number") == Text(d.serialNumber)
    && forall k :: k in d.others && k !in {"pci_bus_id", "serial_number"} ==> Sub(j, k) == d.others[k]
  }

  lemma DumpedDisk(d: Disk)
    ensures DiskTells(DumpDisk(d), d)
  {
  }

  lemma DumpedDevice(d: Device)
    ensures DeviceTells(DumpDevice(d), d)
  {
  }

  /** The same for the other reports. */
  lemma ReadinessDumpTells(p: Payload)
    requires p.ReadinessReport?
    ensures var j := Dump(p);
      && Sub(j, "profile") == DumpProfile(p.profile) && Sub(j, "environment") == DumpEnvironment(p.environment)
      && Sub(j, "tool_version") == Str(p.toolVersion)
      && forall k :: k in p.others && k !in {"profile", "environment", "tool_version"} ==> Sub(j, k) == p.others[k]
    ensures var profile := DumpProfile(p.profile);
      && Sub(profile, "id") == Str(p.profile.id) && Sub(profile, "sha256") == Str(p.profile.sha256)
      && Sub(profile, "source_status") == Str(p.profile.sourceStatus)
    ensures var environment := DumpEnvironment(p.environment);
      && Sub(environment, "os_family") == Str(p.environment.osFamily)
      && Sub(environment, "architecture") == Str(p.environment.architecture)
      && Sub(environment, "privacy_level") == Str(Label(p.environment.privacyLevel))
  {
  }

  lemma DoctorDumpTells(p: Payload)
    requires p.DoctorReport?
    ensures var j := Dump(p);
      && Sub(Sub(j, "network"), "target") == Text(p.target) && Sub(Sub(j, "clock"), "server") == Text(p.server)
      && Sub(j, "tool_version") == Str(p.toolVersion)
      && (forall k :: k in p.networkOthers && k != "target" ==> Sub(Sub(j, "network"), k) == p.networkOthers[k])
      && (forall k :: k in p.clockOthers && k != "server" ==> Sub(Sub(j, "clock"), k) == p.clockOthers[k])
      && forall k :: k in p.others && k !in {"network", "clock", "tool_version"} ==> Sub(j, k) == p.others[k]
  {
  }

  lemma BenchmarkDumpTells(p: Payload)
    requires p.BenchmarkReport?
    ensures var j := Dump(p);
      && Sub(j, "schema") == Str(p.schema) && Sub(j, "tool_version") == Str(p.toolVersion)
      && forall k :: k in p.others && k !in {"schema", "tool_version"} ==> Sub(j, k) == p.others[k]
  {
  }

  // ----- What counts as a secret -----

  /** At this place of the value stands a secret string, or a field with a secret name. */
  ghost predicate SecretAt(secret: string -> bool, j: Json, path: Path) {
    Get(j, path).Some? && (
      || (Get(j, path).value.Str? && secret(Get(j, path).value.text))
      || (path != [] && path[|path| - 1].Key? && secret(path[|path| - 1].name)))
  }

  /** The scan finds a secret exactly when some string or field name anywhere in the value is one. */
  lemma {:induction false} SecretsAreSomewhere(secret: string -> bool, j: Json)
    ensures ContainsSecret(secret, j) <==> exists path :: SecretAt(secret, j, path)
    decreases j
  {
    if ContainsSecret(secret, j) {
      SecretIsSomewhere(secret, j);
    }
    forall path | SecretAt(secret, j, path) ensures ContainsSecret(secret, j) {
      SecretIsFound(secret, j, path);
    }
  }

  lemma {:induction false} SecretIsSomewhere(secret: string -> bool, j: Json)
    requires ContainsSecret(secret, j)
    ensures exists path :: SecretAt(secret, j, path)
    decreases j
  {
    match j
    case Str(_) => assert SecretAt(secret, j, []);
    case Obj(m) =>
      var k :| k in m && (secret(k) || ContainsSecret(secret, m[k]));
      if secret(k) {
        assert Get(j, [Key(k)]) == Get(m[k], [Key(k)][1..]);
        assert SecretAt(secret, j, [Key(k)]);
      } else {
        SecretIsSomewhere(secret, m[k]);
        var path :| SecretAt(secret, m[k], path);
        SecretBelow(secret, j, Key(k), path);
      }
    case Arr(items) =>
      var i :| 0 <= i < |items| && ContainsSecret(secret, items[i]);
      SecretIsSomewhere(secret, items[i]);
      var path :| SecretAt(secret, items[i], path);
      SecretBelow(secret, j, Index(i), path);
    case _ =>
  }

  lemma SecretBelow(secret: string -> bool, j: Json, s: Segment, path: Path)
    requires Child(j, s).Some? && SecretAt(secret, Child(j, s).value, path)
    ensures SecretAt(secret, j, [s] + path)
  {
    assert ([s] + path)[0] == s && ([s] + path)[1..] == path;
    if path != [] { assert ([s] + path)[|path|] == path[|path| - 1]; }
  }

  lemma {:induction false} SecretIsFound(secret: string -> bool, j: Json, path: Path)
    requires SecretAt(secret, j, path)
    ensures ContainsSecret(secret, j)
    decreases path
  {
    if path != [] {
      var s := path[0];
      var x := Child(j, s).value;
      assert Get(j, path) == Get(x, path[1..]);
      if |path| > 1 {
        assert path[1..][|path[1..]| - 1] == path[|path| - 1];
        SecretIsFound(secret, x, path[1..]);
      } else {
        assert Get(j, path) == Some(x);
      }
      assert ContainsSecret(secret, x) || (s.Key? && secret(s.name));
      SecretInChild(secret, j, s);
    }
  }

  lemma SecretInChild(secret: string -> bool, j: Json, s: Segment)
    requires Child(j, s).Some? && (ContainsSecret(secret, Child(j, s).value) || (s.Key? && secret(s.name)))
    ensures ContainsSecret(secret, j)
  {
    match j
    case Obj(m) => assert m[s.name] == Child(j, s).value;
    case Arr(items) => assert items[s.at] == Child(j, s).value;
  }

  /** Redaction succeeds exactly when no string and no field name in the dump of the redacted report is a secret. */
  lemma RedactedExactly(secret: string -> bool, p: Payload, level: PrivacyLevel)
    ensures Redact(secret, p, level) == if exists path :: SecretAt(secret, Dump(Transform(p, level)), path)
      then Err("report contains credential-like material") else Ok(Transform(p, level))
  {
    SecretsAreSomewhere(secret, Dump(Transform(p, level)));
  }
}
