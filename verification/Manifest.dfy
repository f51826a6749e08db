/** The release checksum manifest as a printer and a parser (release.py). */
module Manifest {
  import opened Outcomes
  import opened StringOrder

  const MANIFEST_NAME := "SHA256SUMS"
  const MAX_METADATA_BYTES: nat := 8 * 1024 * 1024
  const MAX_ARTIFACT_BYTES: nat := 512 * 1024 * 1024

  /** A directory entry: a regular file with its size and digest, or anything else. */
  datatype Entry = Regular(size: nat, digest: string) | Other

  /** A directory by name. */
  type Listing = map<string, Entry>

  /** The same without the manifest itself: the files it lists. */
  type Artifacts = map<string, Entry>

  function ArtifactsOf(listing: Listing): Artifacts {
    map n | n in listing && n != MANIFEST_NAME :: listing[n]
  }

  datatype Failure = NoArtifacts | UnsafeFile | ManifestExists | NotAscii | ManifestTooLarge | Malformed | WrongSet | Mismatch

  // ----- One line: 64 hex digits, two spaces, a name -----

  predicate IsHex(c: char) {
    '0' <= c <= '9' || 'a' <= c <= 'f'
  }

  predicate IsDigest(s: string) {
    |s| == 64 && forall i :: 0 <= i < |s| ==> IsHex(s[i])
  }

  predicate IsAlnum(c: char) {
    '0' <= c <= '9' || 'a' <= c <= 'z' || 'A' <= c <= 'Z'
  }

  predicate IsNameChar(c: char) {
    IsAlnum(c) || c == '_' || c == '.' || c == '+' || c == '-'
  }

  predicate IsName(s: string) {
    s != "" && IsAlnum(s[0]) && forall i :: 0 <= i < |s| ==> IsNameChar(s[i])
  }

  function Line(digest: string, name: string): string {
    digest + "  " + name
  }

  /** `SHA256_LINE.fullmatch`: the digest and the name. */
  function MatchLine(line: string): Option<(string, string)> {
    if |line| > 66 && IsDigest(line[..64]) && line[64..66] == "  " && IsName(line[66..]) then Some((line[..64], line[66..]))
    else None
  }

  /** The ASCII characters at which `str.splitlines` breaks. */
  predicate IsBreak(c: char) {
    '\n' <= c <= '\r' || 28 as char <= c <= 30 as char
  }

  /** `read_text().splitlines()` of ASCII text; cur is the line read so far. */
  function SplitLines(text: string, cur: string): seq<string>
    decreases text
  {
    if text == "" then (if cur == "" then [] else [cur])
    else if text[0] == '\r' && |text| > 1 && text[1] == '\n' then [cur] + SplitLines(text[2..], "")
    else if IsBreak(text[0]) then [cur] + SplitLines(text[1..], "")
    else SplitLines(text[1..], cur + [text[0]])
  }

  predicate IsAscii(s: string) {
    forall i :: 0 <= i < |s| ==> s[i] < 128 as char
  }

  // ----- Writing -----

  predicate SafeArtifact(e: Entry) {
    e.Regular? && e.size <= MAX_ARTIFACT_BYTES
  }

  function DigestOf(e: Entry): string {
    if e.Regular? then e.digest else ""
  }

  function ManifestText(dir: Artifacts, names: seq<string>): string
    requires forall i :: 0 <= i < |names| ==> names[i] in dir
  {
    if names == [] then "" else Line(DigestOf(dir[names[0]]), names[0]) + "\n" + ManifestText(dir, names[1..])
  }

  /** `write_checksums`: the text of the new manifest. */
  method WriteChecksums(listing: Listing) returns (r: Result<string, Failure>)
    ensures r == Written(ArtifactsOf(listing), MANIFEST_NAME in listing)
  {
    hide SafeArtifact, IsAscii, ManifestText;
    var dir := ArtifactsOf(listing);
    var names := Sorted(dir.Keys);
    SortedCovers(dir);
    if names == [] {
      return Err(NoArtifacts);
    }
    var text := HashArtifacts(dir, names);
    if text.None? {
      return Err(UnsafeFile);
    }
    if MANIFEST_NAME in listing {
      return Err(ManifestExists);
    }
    r := if IsAscii(text.value) then Ok(text.value) else Err(NotAscii);
  }

  lemma SortedCovers(dir: Artifacts)
    ensures Sorted(dir.Keys) == [] <==> dir.Keys == {}
    ensures AllSafe(dir) <==> forall i :: 0 <= i < |Sorted(dir.Keys)| ==> SafeArtifact(dir[Sorted(dir.Keys)[i]])
  {
    var names := Sorted(dir.Keys);
    if names != [] { assert names[0] in dir.Keys; }
    forall n | n in dir ensures exists i :: 0 <= i < |names| && names[i] == n {
      assert n in names;
    }
  }

  /** The loop over the sorted artifacts; None when one of them is not a bounded regular file. */
  method HashArtifacts(dir: Artifacts, names: seq<string>) returns (text: Option<string>)
    requires forall i :: 0 <= i < |names| ==> names[i] in dir
    ensures text == if (forall i :: 0 <= i < |names| ==> SafeArtifact(dir[names[i]])) then Some(ManifestText(dir, names)) else None
  {
    hide Line, SafeArtifact, ManifestText, DigestOf;
    var lines := "";
    TextStart(dir, names);
    for i := 0 to |names|
      invariant forall j :: 0 <= j < i ==> SafeArtifact(dir[names[j]])
      invariant lines + ManifestText(dir, names[i..]) == ManifestText(dir, names)
    {
      if !SafeArtifact(dir[names[i]]) {
        return None;
      }
      TextStep(dir, names, i, lines);
      lines := lines + (Line(DigestOf(dir[names[i]]), names[i]) + "\n");
    }
    TextEnd(dir, names, lines);
    return Some(lines);
  }

  lemma TextStart(dir: Artifacts, names: seq<string>)
    requires forall i :: 0 <= i < |names| ==> names[i] in dir
    ensures "" + ManifestText(dir, names[0..]) == ManifestText(dir, names)
  {
    assert names[0..] == names;
  }

  lemma TextStep(dir: Artifacts, names: seq<string>, i: nat, text: string)
    requires (forall j :: 0 <= j < |names| ==> names[j] in dir) && i < |names|
    ensures text + ManifestText(dir, names[i..])
         == (text + (Line(DigestOf(dir[names[i]]), names[i]) + "\n")) + ManifestText(dir, names[i + 1..])
  {
    hide Line, DigestOf;
    assert names[i..][1..] == names[i + 1..];
  }

  lemma TextEnd(dir: Artifacts, names: seq<string>, text: string)
    requires forall j :: 0 <= j < |names| ==> names[j] in dir
    ensures text + ManifestText(dir, names[|names|..]) == text
  {
  }

  function Written(dir: Artifacts, manifestExists: bool): Result<string, Failure> {
    if dir.Keys == {} then Err(NoArtifacts)
    else if !AllSafe(dir) then Err(UnsafeFile)
    else if manifestExists then Err(ManifestExists)
    else
      var text := ManifestText(dir, Sorted(dir.Keys));
      if IsAscii(text) then Ok(text) else Err(NotAscii)
  }

  predicate AllSafe(dir: Artifacts) {
    forall n :: n in dir ==> SafeArtifact(dir[n])
  }

  // ----- Verifying -----

  /** The recorded digests by name; None when a line is malformed or repeats a name. */
  function Recorded(lines: seq<string>): Option<map<string, string>> {
    if lines == [] then Some(map[])
    else
      var before := Recorded(lines[..|lines| - 1]);
      match (before, MatchLine(lines[|lines| - 1]))
      case (Some(m), Some((digest, name))) => if name in m then None else Some(m[name := digest])
      case _ => None
  }

  /** `verify_checksums`, given the bytes of the manifest if it is a regular file. */
  method VerifyChecksums(listing: Listing, contents: Option<string>) returns (failure: Option<Failure>)
    ensures failure == if contents.None? then Some(UnsafeFile) else Verification(ArtifactsOf(listing), contents.value)
  {
    if contents.None? {
      return Some(UnsafeFile);
    }
    var dir, manifest := ArtifactsOf(listing), contents.value;
    if |manifest| > MAX_METADATA_BYTES {
      return Some(ManifestTooLarge);
    }
    if !IsAscii(manifest) {
      return Some(NotAscii);
    }
    var lines := SplitLines(manifest, "");
    var recorded: map<string, string> := map[];
    for i := 0 to |lines|
      invariant Recorded(lines[..i]) == Some(recorded)
    {
      var found := MatchLine(lines[i]);
      assert lines[..i + 1][..i] == lines[..i];
      if found.None? || found.value.1 in recorded {
        RecordedFails(lines, i + 1);
        return Some(Malformed);
      }
      recorded := recorded[found.value.1 := found.value.0];
    }
    assert lines[..|lines|] == lines;
    if !AllSafe(dir) {
      return Some(UnsafeFile);
    }
    if recorded.Keys != dir.Keys {
      return Some(WrongSet);
    }
    if exists n :: n in recorded && recorded[n] != DigestOf(dir[n]) {
      return Some(Mismatch);
    }
    return None;
  }

  function Verification(dir: Artifacts, manifest: string): Option<Failure> {
    if |manifest| > MAX_METADATA_BYTES then Some(ManifestTooLarge)
    else if !IsAscii(manifest) then Some(NotAscii)
    else
      match Recorded(SplitLines(manifest, ""))
      case None => Some(Malformed)
      case Some(recorded) =>
        if !AllSafe(dir) then Some(UnsafeFile)
        else if recorded.Keys != dir.Keys then Some(WrongSet)
        else if exists n :: n in recorded && recorded[n] != DigestOf(dir[n]) then Some(Mismatch)
        else None
  }

  lemma {:induction false} RecordedFails(lines: seq<string>, n: nat)
    requires n <= |lines| && Recorded(lines[..n]) == None
    ensures Recorded(lines) == None
    decreases |lines| - n
  {
    if n < |lines| {
      assert lines[..n + 1][..n] == lines[..n];
      RecordedFails(lines, n + 1);
    } else {
      assert lines[..n] == lines;
    }
  }

  // ----- Laws -----

  /** Every digest recorded for a regular file is 64 hex digits. */
  predicate DigestsAreHex(dir: Artifacts) {
    forall n :: n in dir && dir[n].Regular? ==> IsDigest(dir[n].digest)
  }

  predicate NamesMatch(dir: Artifacts) {
    forall n :: n in dir ==> IsName(n)
  }

  function Digests(dir: Artifacts): map<string, string>
  {
    map n | n in dir :: DigestOf(dir[n])
  }

  function DigestsOf(dir: Artifacts, names: seq<string>): map<string, string>
    requires forall i :: 0 <= i < |names| ==> names[i] in dir
  {
    map n | n in names :: DigestOf(dir[n])
  }

  lemma DigestsOfSorted(dir: Artifacts)
    ensures DigestsOf(dir, Sorted(dir.Keys)) == Digests(dir)
  {
  }

  lemma {:induction false} SplitKeepsUnbroken(line: string, rest: string, cur: string)
    requires forall i :: 0 <= i < |line| ==> !IsBreak(line[i])
    ensures SplitLines(line + "\n" + rest, cur) == [cur + line] + SplitLines(rest, "")
  {
    var text := line + "\n" + rest;
    if line == "" {
      assert text[0] == '\n' && text[1..] == rest;
      assert cur + line == cur;
    } else {
      assert text[0] == line[0] && text[1..] == line[1..] + "\n" + rest;
      SplitKeepsUnbroken(line[1..], rest, cur + [line[0]]);
      assert cur + [line[0]] + line[1..] == cur + line;
    }
  }

  lemma LineIsUnbroken(digest: string, name: string)
    requires IsDigest(digest) && IsName(name)
    ensures MatchLine(Line(digest, name)) == Some((digest, name))
    ensures forall i :: 0 <= i < |Line(digest, name)| ==> !IsBreak(Line(digest, name)[i]) && Line(digest, name)[i] < 128 as char
  {
    var line := Line(digest, name);
    assert line[..64] == digest && line[64..66] == "  " && line[66..] == name;
    forall i | 0 <= i < |line| ensures !IsBreak(line[i]) && line[i] < 128 as char {
      if i < 64 { assert IsHex(digest[i]); } else if i >= 66 { assert IsNameChar(name[i - 66]); }
    }
  }

  function LinesOf(dir: Artifacts, names: seq<string>): (lines: seq<string>)
    requires forall i :: 0 <= i < |names| ==> names[i] in dir
    ensures |lines| == |names|
    ensures forall i :: 0 <= i < |names| ==> lines[i] == Line(DigestOf(dir[names[i]]), names[i])
  {
    seq(|names|, i requires 0 <= i < |names| => Line(DigestOf(dir[names[i]]), names[i]))
  }

  /** Each name may stand in a manifest line with its digest. */
  predicate Printable(dir: Artifacts, names: seq<string>) {
    forall i :: 0 <= i < |names| ==> names[i] in dir && IsName(names[i]) && IsDigest(DigestOf(dir[names[i]]))
  }

  lemma {:induction false} TextSplitsIntoLines(dir: Artifacts, names: seq<string>)
    requires Printable(dir, names)
    ensures SplitLines(ManifestText(dir, names), "") == LinesOf(dir, names)
    ensures IsAscii(ManifestText(dir, names))
  {
    hide IsName, IsDigest, IsBreak, MatchLine;
    if names != [] {
      var line, rest := Line(DigestOf(dir[names[0]]), names[0]), ManifestText(dir, names[1..]);
      LineIsUnbroken(DigestOf(dir[names[0]]), names[0]);
      TextSplitsIntoLines(dir, names[1..]);
      SplitKeepsUnbroken(line, rest, "");
      assert "" + line == line;
      AsciiConcat(line, "\n");
      AsciiConcat(line + "\n", rest);
    }
  }

  lemma AsciiConcat(s: string, t: string)
    requires IsAscii(s) && IsAscii(t)
    ensures IsAscii(s + t)
  {
  }

  /** Parsing the lines of distinct names gives back their digests. */
  lemma {:induction false} LinesRecordDigests(dir: Artifacts, names: seq<string>)
    requires Printable(dir, names)
    requires forall i, j :: 0 <= i < j < |names| ==> names[i] != names[j]
    ensures Recorded(LinesOf(dir, names)) == Some(DigestsOf(dir, names))
  {
    hide Line, MatchLine, IsName, IsDigest, DigestOf;
    if names != [] {
      var init, last := names[..|names| - 1], names[|names| - 1];
      LinesRecordDigests(dir, init);
      LineIsUnbroken(DigestOf(dir[last]), last);
      assert LinesOf(dir, names)[..|names| - 1] == LinesOf(dir, init);
      assert DigestsOf(dir, names) == DigestsOf(dir, init)[last := DigestOf(dir[last])];
    }
  }

  lemma {:induction false} RecordedNamesMatch(lines: seq<string>)
    ensures Recorded(lines).Some? ==> forall n :: n in Recorded(lines).value ==> IsName(n)
  {
    if lines != [] { RecordedNamesMatch(lines[..|lines| - 1]); }
  }

  /** The parser undoes the printer. */
  lemma ManifestRoundTrip(dir: Artifacts)
    requires AllSafe(dir) && DigestsAreHex(dir) && NamesMatch(dir)
    ensures var text := ManifestText(dir, Sorted(dir.Keys));
      IsAscii(text) && Recorded(SplitLines(text, "")) == Some(Digests(dir))
  {
    var names := Sorted(dir.Keys);
    PrintableDirectory(dir);
    hide Printable, ManifestText, SplitLines, Recorded, LinesOf, AllSafe, DigestsAreHex, NamesMatch, DigestOf, IsAscii, Digests, DigestsOf;
    TextSplitsIntoLines(dir, names);
    LinesRecordDigests(dir, names);
    DigestsOfSorted(dir);
  }

  lemma PrintableDirectory(dir: Artifacts)
    requires AllSafe(dir) && DigestsAreHex(dir) && NamesMatch(dir)
    ensures Printable(dir, Sorted(dir.Keys))
  {
    hide IsName, IsDigest;
    var names := Sorted(dir.Keys);
    forall i | 0 <= i < |names| ensures names[i] in dir && IsName(names[i]) && IsDigest(DigestOf(dir[names[i]])) {
      assert names[i] in names;
      assert SafeArtifact(dir[names[i]]);
    }
  }

  /** A fresh manifest verifies its own directory exactly when every name matches the pattern and the manifest is
      within the metadata limit. */
  lemma FreshManifestVerifies(dir: Artifacts)
    requires DigestsAreHex(dir) && Written(dir, false).Ok?
    ensures var text := Written(dir, false).value;
      Verification(dir, text) == None <==> NamesMatch(dir) && |text| <= MAX_METADATA_BYTES
  {
    hide ManifestText, SplitLines, Recorded, IsAscii, IsName, SafeArtifact, DigestsAreHex, DigestOf;
    var text := Written(dir, false).value;
    if NamesMatch(dir) {
      ManifestRoundTrip(dir);
    } else {
      RecordedNamesMatch(SplitLines(text, ""));
    }
  }

  /** A name with a space in it is written but cannot be read back. */
  lemma SpacedNameIsWrittenButNotVerified()
    ensures var dir: Artifacts := map["a b" := Regular(1, seq(64, _ => '0'))];
      Written(dir, false).Ok? && Verification(dir, Written(dir, false).value).Some?
  {
    hide SplitLines, Recorded, MatchLine;
    var dir: Artifacts := map["a b" := Regular(1, seq(64, _ => '0'))];
    assert dir.Keys == {"a b"};
    SortedSingleton("a b");
    assert !IsNameChar("a b"[1]);
    assert ManifestText(dir, ["a b"]) == Line(seq(64, _ => '0'), "a b") + "\n" + "";
    if Written(dir, false).Ok? { FreshManifestVerifies(dir); }
  }

  /** A manifest accepts another state of the directory exactly when every artifact is still safe and the names and
      digests are the recorded ones: nothing added, nothing removed, nothing changed. */
  lemma ManifestPinsDirectory(dir: Artifacts, later: Artifacts)
    requires DigestsAreHex(dir) && NamesMatch(dir) && Written(dir, false).Ok?
    requires |Written(dir, false).value| <= MAX_METADATA_BYTES
    ensures Verification(later, Written(dir, false).value) == None <==> AllSafe(later) && Digests(later) == Digests(dir)
  {
    hide ManifestText, SplitLines, Recorded, IsAscii, NamesMatch, SafeArtifact, DigestsAreHex, DigestOf;
    ManifestRoundTrip(dir);
    assert Digests(later).Keys == later.Keys;
    if AllSafe(later) && Digests(dir).Keys == later.Keys && Digests(later) != Digests(dir) {
      var n :| n in later && Digests(later)[n] != Digests(dir)[n];
    }
  }

  // ----- What a manifest line may hold -----

  /** The characters of digests and names, and where text is broken into lines. */
  lemma Characters(c: char)
    ensures IsHex(c) <==> c in "0123456789abcdef"
    ensures IsNameChar(c) <==> c in "0123456789" || c in "abcdefghijklm" || c in "nopqrstuvwxyz" || c in "ABCDEFGHIJKLM"
                               || c in "NOPQRSTUVWXYZ" || c in "_.+-"
    ensures IsAlnum(c) <==> IsNameChar(c) && c !in "_.+-"
    ensures IsBreak(c) <==> c as int in {10, 11, 12, 13, 28, 29, 30}
  {
    HexCharacters(c);
    NameCharacters(c);
  }

  lemma HexCharacters(c: char)
    ensures IsHex(c) <==> c in "0123456789abcdef"
  {
    var h := "0123456789abcdef";
    if '0' <= c <= '9' { assert h[c as int - '0' as int] == c; }
    if 'a' <= c <= 'f' { assert h[c as int - 'a' as int + 10] == c; }
  }

  lemma NameCharacters(c: char)
    ensures IsAlnum(c) <==> c in "0123456789" || c in "abcdefghijklm" || c in "nopqrstuvwxyz" || c in "ABCDEFGHIJKLM"
                            || c in "NOPQRSTUVWXYZ"
  {
    var d, a, n, u, v := "0123456789", "abcdefghijklm", "nopqrstuvwxyz", "ABCDEFGHIJKLM", "NOPQRSTUVWXYZ";
    if '0' <= c <= '9' { assert d[c as int - '0' as int] == c; }
    if 'a' <= c <= 'm' { assert a[c as int - 'a' as int] == c; }
    if 'n' <= c <= 'z' { assert n[c as int - 'n' as int] == c; }
    if 'A' <= c <= 'M' { assert u[c as int - 'A' as int] == c; }
    if 'N' <= c <= 'Z' { assert v[c as int - 'N' as int] == c; }
  }

  /** A line is read exactly when it is a digest of 64 characters, two spaces and a name. */
  lemma LineIsRead(line: string, digest: string, name: string)
    ensures MatchLine(line) == Some((digest, name)) <==> line == digest + "  " + name && IsDigest(digest) && IsName(name)
    ensures IsDigest(digest) ==> |digest| == 64
  {
    hide IsHex, IsNameChar, IsAlnum;
    if line == digest + "  " + name && IsDigest(digest) && IsName(name) {
      assert line[..64] == digest && line[64..66] == "  " && line[66..] == name;
    }
    if MatchLine(line) == Some((digest, name)) {
      assert line == line[..64] + line[64..66] + line[66..];
    }
  }

  predicate AllRead(lines: seq<string>) {
    forall i :: 0 <= i < |lines| ==> MatchLine(lines[i]).Some?
  }

  /** No two lines have the same name. */
  predicate NamesDiffer(lines: seq<string>) {
    forall i, j :: 0 <= i < j < |lines| && MatchLine(lines[i]).Some? && MatchLine(lines[j]).Some? ==>
      MatchLine(lines[i]).value.1 != MatchLine(lines[j]).value.1
  }

  predicate Says(lines: seq<string>, digest: string, name: string) {
    exists i :: 0 <= i < |lines| && MatchLine(lines[i]) == Some((digest, name))
  }

  /** A manifest is parsed exactly when every line is read and no two lines have the same name; it then records for each
      name the digest on its line, and nothing else. */
  lemma {:induction false} RecordedExactly(lines: seq<string>)
    ensures Recorded(lines).Some? <==> AllRead(lines) && NamesDiffer(lines)
    ensures Recorded(lines).Some? ==> forall digest, name ::
      (name in Recorded(lines).value && Recorded(lines).value[name] == digest) <==> Says(lines, digest, name)
  {
    hide MatchLine, AllRead, NamesDiffer, Says;
    if lines == [] {
      NothingRead();
    } else {
      var init, last := lines[..|lines| - 1], lines[|lines| - 1];
      RecordedExactly(init);
      assert lines == init + [last];
      ReadOneMore(init, last);
      forall digest, name ensures Says(lines, digest, name) <==> Says(init, digest, name) || MatchLine(last) == Some((digest, name)) {
        SaysOneMore(init, last, digest, name);
      }
      if Recorded(init).Some? && MatchLine(last).Some? {
        var m, name := Recorded(init).value, MatchLine(last).value.1;
        if name in m { assert Says(init, m[name], name); }
      }
    }
  }

  lemma NothingRead()
    ensures AllRead([]) && NamesDiffer([]) && forall digest, name :: !Says([], digest, name)
  {
  }

  lemma SaysOneMore(init: seq<string>, last: string, digest: string, name: string)
    ensures Says(init + [last], digest, name) <==> Says(init, digest, name) || MatchLine(last) == Some((digest, name))
  {
    hide MatchLine;
    var lines := init + [last];
    assert lines[|init|] == last && forall i :: 0 <= i < |init| ==> lines[i] == init[i];
  }

  lemma ReadOneMore(init: seq<string>, last: string)
    ensures AllRead(init + [last]) <==> AllRead(init) && MatchLine(last).Some?
    ensures MatchLine(last).Some? ==>
      (NamesDiffer(init + [last]) <==> NamesDiffer(init) && forall digest :: !Says(init, digest, MatchLine(last).value.1))
  {
    hide MatchLine;
    var lines := init + [last];
    assert lines[|init|] == last && forall i :: 0 <= i < |init| ==> lines[i] == init[i];
    if MatchLine(last).Some? {
      var name := MatchLine(last).value.1;
      if NamesDiffer(lines) {
        forall i, j | 0 <= i < j < |init| && MatchLine(init[i]).Some? && MatchLine(init[j]).Some?
          ensures MatchLine(init[i]).value.1 != MatchLine(init[j]).value.1
        {
          assert lines[i] == init[i] && lines[j] == init[j];
        }
        forall i | 0 <= i < |init| && MatchLine(init[i]).Some? ensures MatchLine(init[i]).value.1 != name {
          assert lines[i] == init[i] && lines[|init|] == last;
        }
      }
      if NamesDiffer(init) && forall digest :: !Says(init, digest, name) {
        forall i, j | 0 <= i < j < |lines| && MatchLine(lines[i]).Some? && MatchLine(lines[j]).Some?
          ensures MatchLine(lines[i]).value.1 != MatchLine(lines[j]).value.1
        {
          assert lines[i] == init[i];
          if j < |init| {
            assert lines[j] == init[j];
          } else {
            assert !Says(init, MatchLine(init[i]).value.0, name);
          }
        }
      }
    }
  }

  /** A manifest that repeats a name is malformed, whatever the directory holds. */
  lemma RepeatedNameIsMalformed(dir: Artifacts, text: string, i: nat, j: nat)
    requires var lines := SplitLines(text, "");
      i < j < |lines| && MatchLine(lines[i]).Some? && MatchLine(lines[j]).Some?
      && MatchLine(lines[i]).value.1 == MatchLine(lines[j]).value.1
    requires |text| <= 8388608 && IsAscii(text)
    ensures Verification(dir, text) == Some(Malformed)
  {
    hide MatchLine, SplitLines, Recorded, IsAscii;
    RecordedExactly(SplitLines(text, ""));
  }

  /** Writing succeeds exactly for a directory with at least one artifact, all of them regular files of at most 512 MiB,
      no manifest yet, and an ASCII text. */
  lemma WrittenExactly(dir: Artifacts, manifestExists: bool)
    ensures Written(dir, manifestExists).Ok? <==>
      && (exists n :: n in dir) && (forall n :: n in dir ==> dir[n].Regular? && dir[n].size <= 536870912)
      && !manifestExists && IsAscii(ManifestText(dir, Sorted(dir.Keys)))
  {
    hide ManifestText, IsAscii;
    if dir.Keys != {} {
      var n :| n in dir.Keys;
    }
  }

  /** A text verifies a directory exactly when it is ASCII within 8 MiB, parses, and records the directory's names with
      their digests, and every artifact is a regular file of at most 512 MiB. */
  lemma VerifiedExactly(dir: Artifacts, text: string)
    ensures Verification(dir, text).None? <==>
      && |text| <= 8388608 && IsAscii(text) && Recorded(SplitLines(text, "")) == Some(Digests(dir))
      && forall n :: n in dir ==> dir[n].Regular? && dir[n].size <= 536870912
  {
    hide SplitLines, Recorded, IsAscii;
    match Recorded(SplitLines(text, "")) {
      case Some(recorded) =>
        if recorded.Keys == dir.Keys && recorded != Digests(dir) {
          var n :| n in recorded && recorded[n] != Digests(dir)[n];
        }
      case None =>
    }
  }

  /** Text is broken after each line at the next break, a carriage return and newline counting as one; what follows the
      last break is a line if there is any. */
  lemma {:induction false} TextBreaks(line: string, mark: string, rest: string, cur: string)
    requires forall i :: 0 <= i < |line| ==> !IsBreak(line[i])
    requires mark == "\r\n" || (|mark| == 1 && IsBreak(mark[0]) && !(mark == "\r" && rest != "" && rest[0] == '\n'))
    ensures SplitLines(line + mark + rest, cur) == [cur + line] + SplitLines(rest, "")
    ensures SplitLines(line, cur) == if cur + line == "" then [] else [cur + line]
    decreases line
  {
    var text := line + mark + rest;
    if line == "" {
      assert text == mark + rest && cur + line == cur;
      assert text[0] == mark[0] && text[|mark|..] == rest;
      if |mark| == 1 && rest != "" { assert text[1] == rest[0]; }
    } else {
      assert text[0] == line[0] && text[1..] == line[1..] + mark + rest;
      TextBreaks(line[1..], mark, rest, cur + [line[0]]);
      assert cur + [line[0]] + line[1..] == cur + line;
    }
  }
}
