/** Construction of report exports (reporting/service.py, reporting/models.py). */
module Export {
  import opened Outcomes
  import opened Json
  import opened Redaction

  datatype Binding = SourceReport | UserSelected | Unbound

  datatype Provenance = Provenance(exporterVersion: string, sourceToolVersion: string, sourceDigest: Option<string>, binding: Binding)

  datatype Document = Document(
    privacyLevel: PrivacyLevel, payload: Payload, comparisonProfile: Option<ProfileReference>, provenance: Provenance)

  datatype ReportExport = ReportExport(document: Document, digest: string)

  /** `consistent_context`. */
  predicate ConsistentContext(d: Document) {
    && (!d.privacyLevel.Private? ==> d.provenance.sourceDigest == None)
    && d.provenance.sourceToolVersion == ToolVersion(d.payload)
    && (if d.payload.ReadinessReport? then
          && d.comparisonProfile == Some(d.payload.profile) && d.provenance.binding == SourceReport
          && d.payload.environment.privacyLevel == d.privacyLevel
        else
          d.provenance.binding == if d.comparisonProfile.Some? then UserSelected else Unbound)
    && (d.payload.ProbeReport? ==> d.payload.probe.privacyLevel == d.privacyLevel)
  }

  function BindingText(b: Binding): string {
    match b case SourceReport => "source-report" case UserSelected => "user-selected" case Unbound => "none"
  }

  function DumpDocument(d: Document): Json {
    Obj(map["schema" := Str("flopbench-report-document-v1"),
            "privacy_level" := Str(Label(d.privacyLevel)),
            "payload" := Dump(d.payload),
            "comparison_profile" := if d.comparisonProfile.Some? then DumpProfile(d.comparisonProfile.value) else Null,
            "provenance" := Obj(map[
              "exporter_version" := Str(d.provenance.exporterVersion),
              "source_tool_version" := Str(d.provenance.sourceToolVersion),
              "redaction_policy" := Str("1.0.0"),
              "canonicalizer" := Str("rfc8785/0.1.4"),
              "source_jcs_sha256" := DumpOption(d.provenance.sourceDigest),
              "profile_binding" := Str(BindingText(d.provenance.binding)),
              "authenticity" := Str("unverified-local-observations")])])
  }

  /** `digest_matches_document`; the canonical digest is None when a value has no canonical form. */
  predicate DigestMatches(canonicalDigest: Json -> Option<string>, e: ReportExport) {
    canonicalDigest(DumpDocument(e.document)) == Some(e.digest)
  }

  /** What the exporter is given besides the report. */
  datatype Exporter = Exporter(secret: string -> bool, canonicalDigest: Json -> Option<string>, version: string)

  datatype Failure = Credentials | NotCanonical | InvalidContext

  function DocumentFor(x: Exporter, payload: Payload, privacy: PrivacyLevel, profile: Option<ProfileReference>,
                       sourceDigest: Option<string>): Document
  {
    var comparison := if payload.ReadinessReport? then Some(payload.profile) else profile;
    var binding := if payload.ReadinessReport? then SourceReport else if profile.Some? then UserSelected else Unbound;
    Document(privacy, Transform(payload, privacy), comparison,
      Provenance(x.version, ToolVersion(payload), sourceDigest, binding))
  }

  /** `create_export`. */
  function CreateExport(x: Exporter, payload: Payload, privacy: PrivacyLevel, profile: Option<ProfileReference>): Result<ReportExport, Failure> {
    if Redact(x.secret, payload, privacy).Err? then Err(Credentials)
    else if privacy.Private? && x.canonicalDigest(Dump(payload)).None? then Err(NotCanonical)
    else
      var document := DocumentFor(x, payload, privacy, profile,
        if privacy.Private? then x.canonicalDigest(Dump(payload)) else None);
      if !ConsistentContext(document) then Err(InvalidContext)
      else match x.canonicalDigest(DumpDocument(document))
        case None => Err(NotCanonical)
        case Some(digest) => Ok(ReportExport(document, digest))
  }

  /** The context validator never refuses what create_export builds, and a built export is self-consistent: its digest
      matches, its payload hides what its level promises and holds no credential, and a shared export carries no
      fingerprint of the source. */
  lemma ExportsAreConsistent(x: Exporter, payload: Payload, privacy: PrivacyLevel, profile: Option<ProfileReference>)
    ensures CreateExport(x, payload, privacy, profile) != Err(InvalidContext)
    ensures CreateExport(x, payload, privacy, profile).Ok? ==>
      var e := CreateExport(x, payload, privacy, profile).value;
      && ConsistentContext(e.document) && DigestMatches(x.canonicalDigest, e)
      && e.document.privacyLevel == privacy && Hides(e.document.payload, privacy)
      && Redact(x.secret, payload, privacy) == Ok(e.document.payload)
      && (e.document.provenance.sourceDigest.Some? <==> privacy.Private?)
  {
    hide ContainsSecret, Dump, DumpDocument, Hides;
    RedactionIsFinal(payload, privacy, privacy);
  }

  /** Exporting fails only for credentials or for values without a canonical form. */
  lemma ExportSucceedsExactly(x: Exporter, payload: Payload, privacy: PrivacyLevel, profile: Option<ProfileReference>)
    ensures CreateExport(x, payload, privacy, profile).Ok? <==>
      && Redact(x.secret, payload, privacy).Ok?
      && (privacy.Private? ==> x.canonicalDigest(Dump(payload)).Some?)
      && x.canonicalDigest(DumpDocument(DocumentFor(x, payload, privacy, profile,
           if privacy.Private? then x.canonicalDigest(Dump(payload)) else None))).Some?
  {
    hide ContainsSecret, Dump, DumpDocument;
    ExportsAreConsistent(x, payload, privacy, profile);
  }

  // ----- What the two validators refuse -----

  /** A document is refused for a source fingerprint on a shared report, a foreign tool version, a profile or label that is
      not the readiness report's own, a binding that does not tell the profile's origin, or a foreign probe label; and for
      nothing else. */
  lemma ContextRefusals(d: Document)
    ensures !d.privacyLevel.Private? && d.provenance.sourceDigest.Some? ==> !ConsistentContext(d)
    ensures d.provenance.sourceToolVersion != ToolVersion(d.payload) ==> !ConsistentContext(d)
    ensures d.payload.ReadinessReport? && (d.comparisonProfile != Some(d.payload.profile) || !d.provenance.binding.SourceReport?) ==>
      !ConsistentContext(d)
    ensures d.payload.ReadinessReport? && d.payload.environment.privacyLevel != d.privacyLevel ==> !ConsistentContext(d)
    ensures !d.payload.ReadinessReport? && d.comparisonProfile.Some? && !d.provenance.binding.UserSelected? ==> !ConsistentContext(d)
    ensures !d.payload.ReadinessReport? && d.comparisonProfile.None? && !d.provenance.binding.Unbound? ==> !ConsistentContext(d)
    ensures d.payload.ProbeReport? && d.payload.probe.privacyLevel != d.privacyLevel ==> !ConsistentContext(d)
  {
  }

  /** Every consistent document over a payload already at its level is one the exporter builds from that payload. */
  lemma ConsistentDocumentsAreBuilt(x: Exporter, d: Document)
    requires ConsistentContext(d) && Transform(d.payload, d.privacyLevel) == d.payload
    ensures d == DocumentFor(x.(version := d.provenance.exporterVersion), d.payload, d.privacyLevel, d.comparisonProfile, d.provenance.sourceDigest)
  {
    hide Transform;
  }

  /** The digest covers the document: label, payload dump, comparison profile and provenance can all be read back from
      what is hashed. */
  lemma DigestCoversDocument(a: Document, b: Document)
    requires DumpDocument(a) == DumpDocument(b)
    ensures a.privacyLevel == b.privacyLevel && Dump(a.payload) == Dump(b.payload)
    ensures a.comparisonProfile == b.comparisonProfile && a.provenance == b.provenance
  {
    hide Dump;
    var x, y := DumpDocument(a).fields, DumpDocument(b).fields;
    assert x["privacy_level"] == y["privacy_level"] && x["payload"] == y["payload"];
    assert x["comparison_profile"] == y["comparison_profile"];
    var u, v := x["provenance"].fields, y["provenance"].fields;
    assert u["exporter_version"] == v["exporter_version"] && u["source_tool_version"] == v["source_tool_version"];
    assert u["source_jcs_sha256"] == v["source_jcs_sha256"] && u["profile_binding"] == v["profile_binding"];
    LabelsDiffer(a.privacyLevel, b.privacyLevel);
    BindingsDiffer(a.provenance.binding, b.provenance.binding);
    ProfilesDiffer(a.comparisonProfile, b.comparisonProfile);
  }

  lemma LabelsDiffer(a: PrivacyLevel, b: PrivacyLevel)
    ensures Label(a) == Label(b) <==> a == b
  {
    assert |Label(Private)| == 7 && |Label(Support)| == 7 && |Label(Public)| == 6;
    assert Label(Private)[0] == 'p' && Label(Support)[0] == 's';
  }

  lemma BindingsDiffer(a: Binding, b: Binding)
    ensures BindingText(a) == BindingText(b) <==> a == b
  {
    assert |BindingText(SourceReport)| == 13 && |BindingText(UserSelected)| == 13 && |BindingText(Unbound)| == 4;
    assert BindingText(SourceReport)[0] == 's' && BindingText(UserSelected)[0] == 'u';
  }

  lemma ProfilesDiffer(a: Option<ProfileReference>, b: Option<ProfileReference>)
    requires (if a.Some? then DumpProfile(a.value) else Null) == (if b.Some? then DumpProfile(b.value) else Null)
    ensures a == b
  {
    if a.Some? && b.Some? {
      var x, y := DumpProfile(a.value).fields, DumpProfile(b.value).fields;
      assert x["id"] == y["id"] && x["sha256"] == y["sha256"] && x["source_status"] == y["source_status"];
    }
  }

  /** An export is refused exactly when its digest is not the one its document has. */
  lemma AlteredExportIsRefused(canonicalDigest: Json -> Option<string>, e: ReportExport, document: Document, digest: string)
    requires DigestMatches(canonicalDigest, e)
    ensures DigestMatches(canonicalDigest, e.(digest := digest)) <==> digest == e.digest
    ensures DigestMatches(canonicalDigest, e.(document := document)) <==> canonicalDigest(DumpDocument(document)) == Some(e.digest)
  {
    hide DumpDocument;
  }
}
