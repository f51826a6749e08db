/** Disclosure levels of exported reports (reporting/redaction.py, probe/privacy.py). */
module Redaction {
  import opened Outcomes
  import opened Json

  datatype PrivacyLevel = Private | Support | Public

  function Strictness(p: PrivacyLevel): nat {
    match p case Private => 0 case Support => 1 case Public => 2
  }

  function Label(p: PrivacyLevel): string {
    match p case Private => "private" case Support => "support" case Public => "public"
  }

  // ----- The reports; `others` holds the fields no disclosure level touches, already dumped -----

  type Fields = map<string, Json>

  datatype Host = Host(hostname: Option<string>, userName: Option<string>, ipAddresses: seq<string>)
  datatype System = System(osFamily: string, architecture: string, osVersion: Option<string>, host: Option<Host>)
  datatype Disk = Disk(device: Option<string>, mountPoint: Option<string>, others: Fields)
  datatype Device = Device(pciBusId: Option<string>, serialNumber: Option<string>, others: Fields)
  datatype Gpu = Gpu(devices: seq<Device>, others: Fields)
  datatype Probe = Probe(privacyLevel: PrivacyLevel, system: System, disks: seq<Disk>, gpu: Gpu, toolVersion: string, others: Fields)

  datatype ProfileReference = ProfileReference(id: string, sha256: string, sourceStatus: string)
  datatype Environment = Environment(osFamily: string, architecture: string, privacyLevel: PrivacyLevel)

  datatype Payload =
    | ProbeReport(probe: Probe)
    | ReadinessReport(profile: ProfileReference, environment: Environment, toolVersion: string, others: Fields)
    | DoctorReport(target: Option<string>, networkOthers: Fields, server: Option<string>, clockOthers: Fields,
                   toolVersion: string, others: Fields)
    | BenchmarkReport(schema: string, toolVersion: string, others: Fields)

  function ToolVersion(p: Payload): string {
    if p.ProbeReport? then p.probe.toolVersion else p.toolVersion
  }

  // ----- `model_dump` -----

  function DumpOption(s: Option<string>): Json {
    if s.Some? then Str(s.value) else Null
  }

  function DumpHost(h: Option<Host>): Json {
    match h
    case None => Null
    case Some(Host(name, user, ips)) =>
      Obj(map["hostname" := DumpOption(name), "user_name" := DumpOption(user),
              "ip_addresses" := Arr(seq(|ips|, i requires 0 <= i < |ips| => Str(ips[i])))])
  }

  function DumpSystem(s: System): Json {
    Obj(map["os_family" := Str(s.osFamily), "architecture" := Str(s.architecture),
            "os_version" := DumpOption(s.osVersion), "host" := DumpHost(s.host)])
  }

  function DumpDisk(d: Disk): Json {
    Obj(d.others + map["device" := DumpOption(d.device), "mount_point" := DumpOption(d.mountPoint)])
  }

  function DumpDevice(d: Device): Json {
    Obj(d.others + map["pci_bus_id" := DumpOption(d.pciBusId), "serial_number" := DumpOption(d.serialNumber)])
  }

  function DumpDisks(ds: seq<Disk>): (r: seq<Json>)
    ensures |r| == |ds| && forall i :: 0 <= i < |ds| ==> r[i] == DumpDisk(ds[i])
  {
    seq(|ds|, i requires 0 <= i < |ds| => DumpDisk(ds[i]))
  }

  function DumpDevices(ds: seq<Device>): (r: seq<Json>)
    ensures |r| == |ds| && forall i :: 0 <= i < |ds| ==> r[i] == DumpDevice(ds[i])
  {
    seq(|ds|, i requires 0 <= i < |ds| => DumpDevice(ds[i]))
  }

  function DumpGpu(g: Gpu): Json {
    Obj(g.others + map["devices" := Arr(DumpDevices(g.devices))])
  }

  function ProbeFields(p: Probe): Fields {
    map["privacy_level" := Str(Label(p.privacyLevel)), "system" := DumpSystem(p.system), "disks" := Arr(DumpDisks(p.disks)),
        "gpu" := DumpGpu(p.gpu), "tool_version" := Str(p.toolVersion)]
  }

  function DumpProbe(p: Probe): Json {
    Obj(p.others + ProbeFields(p))
  }

  function DumpProfile(p: ProfileReference): Json {
    Obj(map["id" := Str(p.id), "sha256" := Str(p.sha256), "source_status" := Str(p.sourceStatus)])
  }

  function DumpEnvironment(e: Environment): Json {
    Obj(map["os_family" := Str(e.osFamily), "architecture" := Str(e.architecture), "privacy_level" := Str(Label(e.privacyLevel))])
  }

  function ReadinessFields(p: Payload): Fields
    requires p.ReadinessReport?
  {
    map["profile" := DumpProfile(p.profile), "environment" := DumpEnvironment(p.environment), "tool_version" := Str(p.toolVersion)]
  }

  function DoctorFields(p: Payload): Fields
    requires p.DoctorReport?
  {
    map["network" := Obj(p.networkOthers + map["target" := DumpOption(p.target)]),
        "clock" := Obj(p.clockOthers + map["server" := DumpOption(p.server)]), "tool_version" := Str(p.toolVersion)]
  }

  function Dump(p: Payload): Json {
    match p
    case ProbeReport(probe) => DumpProbe(probe)
    case ReadinessReport(_, _, _, others) => Obj(others + ReadinessFields(p))
    case DoctorReport(_, _, _, _, _, others) => Obj(others + DoctorFields(p))
    case BenchmarkReport(schema, version, others) => Obj(others + map["schema" := Str(schema), "tool_version" := Str(version)])
  }

  // ----- Secrets -----

  /** `contains_secret_marker`: some string or key anywhere in the value matches. */
  predicate ContainsSecret(secret: string -> bool, j: Json)
    decreases j
  {
    match j
    case Str(s) => secret(s)
    case Obj(fields) => exists k :: k in fields && (secret(k) || ContainsSecret(secret, fields[k]))
    case Arr(items) => exists i :: 0 <= i < |items| && ContainsSecret(secret, items[i])
    case _ => false
  }

  // ----- Redaction -----

  function RedactProbe(p: Probe, level: PrivacyLevel): Probe {
    if level.Private? then p.(privacyLevel := level)
    else
      p.(privacyLevel := level,
         system := p.system.(host := None, osVersion := if level.Public? then None else p.system.osVersion),
         disks := seq(|p.disks|, i requires 0 <= i < |p.disks| => p.disks[i].(device := None, mountPoint := None)),
         gpu := p.gpu.(devices := seq(|p.gpu.devices|, i requires 0 <= i < |p.gpu.devices| =>
           p.gpu.devices[i].(pciBusId := None, serialNumber := None))))
  }

  function Transform(p: Payload, level: PrivacyLevel): Payload {
    match p
    case ProbeReport(probe) => ProbeReport(RedactProbe(probe, level))
    case ReadinessReport(_, _, _, _) => p.(environment := p.environment.(privacyLevel := level))
    case DoctorReport(_, _, _, _, _, _) => if level.Private? then p else p.(target := None, server := None)
    case BenchmarkReport(_, _, _) => p
  }

  const CREDENTIALS := "report contains credential-like material"

  /** `redact_report`. */
  function Redact(secret: string -> bool, p: Payload, level: PrivacyLevel): Result<Payload, string> {
    var redacted := Transform(p, level);
    if ContainsSecret(secret, Dump(redacted)) then Err(CREDENTIALS) else Ok(redacted)
  }

  /** `public_report`, the probe's own public form. */
  function PublicReport(p: Probe): Probe {
    var system := p.system.(osVersion := None, host := None);
    var disks := seq(|p.disks|, i requires 0 <= i < |p.disks| => p.disks[i].(device := None, mountPoint := None));
    var devices := seq(|p.gpu.devices|, i requires 0 <= i < |p.gpu.devices| => p.gpu.devices[i].(pciBusId := None, serialNumber := None));
    p.(privacyLevel := Public, system := system, disks := disks, gpu := p.gpu.(devices := devices))
  }

  /** Both implementations of public redaction give the same probe, unless it still holds credentials. */
  lemma PublicReportAgrees(secret: string -> bool, p: Probe)
    ensures Redact(secret, ProbeReport(p), Public)
         == if ContainsSecret(secret, DumpProbe(PublicReport(p))) then Err(CREDENTIALS) else Ok(ProbeReport(PublicReport(p)))
  {
    assert PublicReport(p) == RedactProbe(p, Public);
  }

  // ----- What each level hides -----

  /** Nothing the level promises to remove is left. */
  predicate Hides(p: Payload, level: PrivacyLevel) {
    level.Private? ||
    match p
    case ProbeReport(probe) =>
      && probe.system.host == None && (level.Public? ==> probe.system.osVersion == None)
      && (forall i :: 0 <= i < |probe.disks| ==> probe.disks[i].device == None && probe.disks[i].mountPoint == None)
      && (forall i :: 0 <= i < |probe.gpu.devices| ==>
            probe.gpu.devices[i].pciBusId == None && probe.gpu.devices[i].serialNumber == None)
    case DoctorReport(target, _, server, _, _, _) => target == None && server == None
    case _ => true
  }

  /** Redaction removes what its level promises, and no later redaction at any level brings it back. */
  lemma RedactionIsFinal(p: Payload, level: PrivacyLevel, later: PrivacyLevel)
    ensures Hides(Transform(p, level), level)
    ensures Hides(Transform(Transform(p, level), later), level)
  {
  }

  /** The same report under another label. */
  function Relabelled(p: Payload, level: PrivacyLevel): Payload {
    match p
    case ProbeReport(probe) => ProbeReport(probe.(privacyLevel := level))
    case ReadinessReport(_, _, _, _) => p.(environment := p.environment.(privacyLevel := level))
    case _ => p
  }

  /** A report hides what a level promises exactly when redacting it at that level changes nothing but its label. */
  lemma HiddenExactly(p: Payload, level: PrivacyLevel)
    ensures Hides(p, level) <==> Transform(p, level) == Relabelled(p, level)
  {
    if p.ProbeReport? && !level.Private? {
      var x, y := p.probe, RedactProbe(p.probe, level);
      if Transform(p, level) == Relabelled(p, level) {
        assert x.disks == y.disks && x.gpu.devices == y.gpu.devices;
        forall i | 0 <= i < |x.disks| ensures x.disks[i].device == None && x.disks[i].mountPoint == None {
          assert x.disks[i] == y.disks[i];
        }
        forall i | 0 <= i < |x.gpu.devices| ensures x.gpu.devices[i].pciBusId == None && x.gpu.devices[i].serialNumber == None {
          assert x.gpu.devices[i] == y.gpu.devices[i];
        }
      }
      if Hides(p, level) {
        assert x.disks == y.disks && x.gpu.devices == y.gpu.devices;
      }
    }
  }

  /** Redacting at a level and then at a stricter one is redacting at the stricter one. */
  lemma RedactionComposes(secret: string -> bool, p: Payload, a: PrivacyLevel, b: PrivacyLevel)
    requires Strictness(a) <= Strictness(b) && Redact(secret, p, a).Ok?
    ensures Redact(secret, Redact(secret, p, a).value, b) == Redact(secret, p, b)
  {
    hide ContainsSecret, Dump;
    if p.ProbeReport? {
      assert RedactProbe(RedactProbe(p.probe, a), b) == RedactProbe(p.probe, b);
    }
  }

  // ----- Success is inherited by stricter levels -----

  /** No secret in x that was not already in y. */
  predicate NoNewSecret(secret: string -> bool, x: Json, y: Json) {
    ContainsSecret(secret, x) ==> ContainsSecret(secret, y)
  }

  /** Field by field, and over the same keys, nothing new. */
  lemma NoNewSecretInFields(secret: string -> bool, x: Fields, y: Fields)
    requires x.Keys <= y.Keys && forall k :: k in x ==> NoNewSecret(secret, x[k], y[k])
    ensures NoNewSecret(secret, Obj(x), Obj(y))
  {
    if ContainsSecret(secret, Obj(x)) {
      var k :| k in x && (secret(k) || ContainsSecret(secret, x[k]));
      assert NoNewSecret(secret, x[k], y[k]);
    }
  }

  lemma NoNewSecretInItems(secret: string -> bool, x: seq<Json>, y: seq<Json>)
    requires |x| == |y| && forall i :: 0 <= i < |x| ==> NoNewSecret(secret, x[i], y[i])
    ensures NoNewSecret(secret, Arr(x), Arr(y))
  {
    if ContainsSecret(secret, Arr(x)) {
      var i :| 0 <= i < |x| && ContainsSecret(secret, x[i]);
      assert NoNewSecret(secret, x[i], y[i]);
    }
  }

  lemma StricterSystem(secret: string -> bool, s: System, a: PrivacyLevel, b: PrivacyLevel, p: Probe)
    requires Strictness(a) <= Strictness(b) && p.system == s
    ensures NoNewSecret(secret, DumpSystem(RedactProbe(p, b).system), DumpSystem(RedactProbe(p, a).system))
  {
    var x, y := DumpSystem(RedactProbe(p, b).system).fields, DumpSystem(RedactProbe(p, a).system).fields;
    assert NoNewSecret(secret, x["host"], y["host"]) && NoNewSecret(secret, x["os_version"], y["os_version"]);
    NoNewSecretInFields(secret, x, y);
  }

  lemma StricterDisks(secret: string -> bool, p: Probe, a: PrivacyLevel, b: PrivacyLevel)
    requires Strictness(a) <= Strictness(b)
    ensures NoNewSecret(secret, Arr(DumpDisks(RedactProbe(p, b).disks)), Arr(DumpDisks(RedactProbe(p, a).disks)))
  {
    var x, y := RedactProbe(p, b).disks, RedactProbe(p, a).disks;
    forall i | 0 <= i < |x| ensures NoNewSecret(secret, DumpDisks(x)[i], DumpDisks(y)[i]) {
      NoNewSecretInFields(secret, DumpDisk(x[i]).fields, DumpDisk(y[i]).fields);
    }
    NoNewSecretInItems(secret, DumpDisks(x), DumpDisks(y));
  }

  lemma StricterGpu(secret: string -> bool, p: Probe, a: PrivacyLevel, b: PrivacyLevel)
    requires Strictness(a) <= Strictness(b)
    ensures NoNewSecret(secret, Arr(DumpDevices(RedactProbe(p, b).gpu.devices)), Arr(DumpDevices(RedactProbe(p, a).gpu.devices)))
  {
    var x, y := RedactProbe(p, b).gpu.devices, RedactProbe(p, a).gpu.devices;
    forall i | 0 <= i < |x| ensures NoNewSecret(secret, DumpDevices(x)[i], DumpDevices(y)[i]) {
      NoNewSecretInFields(secret, DumpDevice(x[i]).fields, DumpDevice(y[i]).fields);
    }
    NoNewSecretInItems(secret, DumpDevices(x), DumpDevices(y));
  }

  /** Overriding the same untouched fields keeps the comparison. */
  lemma NoNewSecretInOverrides(secret: string -> bool, others: Fields, x: Fields, y: Fields)
    requires x.Keys == y.Keys && forall k :: k in x ==> NoNewSecret(secret, x[k], y[k])
    ensures NoNewSecret(secret, Obj(others + x), Obj(others + y))
  {
    hide ContainsSecret;
    forall k | k in others + x ensures NoNewSecret(secret, (others + x)[k], (others + y)[k]) {
      if k !in x { assert (others + x)[k] == others[k] == (others + y)[k]; }
    }
    NoNewSecretInFields(secret, others + x, others + y);
  }

  lemma StricterLabel(secret: string -> bool, a: PrivacyLevel, b: PrivacyLevel)
    requires !secret(Label(b))
    ensures NoNewSecret(secret, Str(Label(b)), Str(Label(a)))
  {
  }

  lemma StricterProbe(secret: string -> bool, p: Probe, a: PrivacyLevel, b: PrivacyLevel)
    requires Strictness(a) <= Strictness(b) && !secret(Label(b))
    ensures NoNewSecret(secret, DumpProbe(RedactProbe(p, b)), DumpProbe(RedactProbe(p, a)))
  {
    var x, y := RedactProbe(p, b), RedactProbe(p, a);
    assert x.others == y.others == p.others && x.gpu.others == y.gpu.others && x.toolVersion == y.toolVersion;
    assert x.privacyLevel == b && y.privacyLevel == a;
    StricterSystem(secret, p.system, a, b, p);
    StricterDisks(secret, p, a, b);
    StricterGpu(secret, p, a, b);
    StricterLabel(secret, a, b);
    StricterDump(secret, x, y);
  }

  lemma StricterDump(secret: string -> bool, x: Probe, y: Probe)
    requires x.others == y.others && x.gpu.others == y.gpu.others && x.toolVersion == y.toolVersion
    requires NoNewSecret(secret, Str(Label(x.privacyLevel)), Str(Label(y.privacyLevel)))
    requires NoNewSecret(secret, DumpSystem(x.system), DumpSystem(y.system))
    requires NoNewSecret(secret, Arr(DumpDisks(x.disks)), Arr(DumpDisks(y.disks)))
    requires NoNewSecret(secret, Arr(DumpDevices(x.gpu.devices)), Arr(DumpDevices(y.gpu.devices)))
    ensures NoNewSecret(secret, DumpProbe(x), DumpProbe(y))
  {
    hide ContainsSecret, DumpSystem, DumpDisks, DumpDevices, Label;
    NoNewSecretInOverrides(secret, x.gpu.others, map["devices" := Arr(DumpDevices(x.gpu.devices))],
      map["devices" := Arr(DumpDevices(y.gpu.devices))]);
    NoNewSecretInOverrides(secret, x.others, ProbeFields(x), ProbeFields(y));
  }

  /** Success at a level implies success at every stricter one, as long as the stricter label is not itself a secret. */
  lemma StricterSucceeds(secret: string -> bool, p: Payload, a: PrivacyLevel, b: PrivacyLevel)
    requires Strictness(a) <= Strictness(b) && !secret(Label(b))
    requires Redact(secret, p, a).Ok?
    ensures Redact(secret, p, b).Ok?
  {
    hide ContainsSecret;
    match p {
      case ProbeReport(probe) => StricterProbe(secret, probe, a, b);
      case ReadinessReport(_, _, _, _) => StricterReadiness(secret, p, a, b);
      case DoctorReport(_, _, _, _, _, _) => StricterDoctor(secret, p, a, b);
      case BenchmarkReport(_, _, _) =>
    }
  }

  lemma StricterReadiness(secret: string -> bool, p: Payload, a: PrivacyLevel, b: PrivacyLevel)
    requires p.ReadinessReport? && !secret(Label(b))
    ensures NoNewSecret(secret, Dump(Transform(p, b)), Dump(Transform(p, a)))
  {
    hide ContainsSecret, Label;
    var x, y := Transform(p, b), Transform(p, a);
    StricterLabel(secret, a, b);
    NoNewSecretInFields(secret, DumpEnvironment(x.environment).fields, DumpEnvironment(y.environment).fields);
    NoNewSecretInOverrides(secret, p.others, ReadinessFields(x), ReadinessFields(y));
  }

  lemma StricterDoctor(secret: string -> bool, p: Payload, a: PrivacyLevel, b: PrivacyLevel)
    requires p.DoctorReport? && Strictness(a) <= Strictness(b)
    ensures NoNewSecret(secret, Dump(Transform(p, b)), Dump(Transform(p, a)))
  {
    var x, y := Transform(p, b), Transform(p, a);
    assert NoNewSecret(secret, DumpOption(x.target), DumpOption(y.target));
    assert NoNewSecret(secret, DumpOption(x.server), DumpOption(y.server));
    hide ContainsSecret, DumpOption;
    NoNewSecretInOverrides(secret, p.networkOthers, map["target" := DumpOption(x.target)], map["target" := DumpOption(y.target)]);
    NoNewSecretInOverrides(secret, p.clockOthers, map["server" := DumpOption(x.server)], map["server" := DumpOption(y.server)]);
    NoNewSecretInOverrides(secret, p.others, DoctorFields(x), DoctorFields(y));
  }
}
