/**
 * The boot helpers of v2.4.16 (v/2.4.16/src/boot.js): recognising an
 * extension page, validating a version string as a path segment, choosing
 * the version from the first manifest that yields a safe one, and the order
 * in which the entry modules are imported. The later boot files repeat the
 * same helpers word for word; their modules reuse these definitions.
 */
module BootV2416 {
  import opened Wrappers

  /** location.protocol of an extension page. */
  const ChromeExtension: string := "chrome-extension:"
  const MozExtension: string := "moz-extension:"

  /**
   * isExtensionProtocol: `location` is window.location's protocol, None when
   * window.location is missing (read as the empty protocol).
   */
  function IsExtensionProtocol(location: Option<string>): (r: bool)
    ensures r <==> location == Some(ChromeExtension) || location == Some(MozExtension)
    ensures location.None? ==> !r
  {
    var protocol := location.GetOr("");
    protocol == ChromeExtension || protocol == MozExtension
  }

  /**
   * The characters String.prototype.trim removes: the white-space and
   * line-terminator code points of ECMAScript.
   */
  const JsWhitespace: set<char> := {
    ' ', '\t', '\n', '\r', '\U{000B}', '\U{000C}', '\U{00A0}', '\U{FEFF}', '\U{1680}',
    '\U{2000}', '\U{2001}', '\U{2002}', '\U{2003}', '\U{2004}', '\U{2005}',
    '\U{2006}', '\U{2007}', '\U{2008}', '\U{2009}', '\U{200A}',
    '\U{2028}', '\U{2029}', '\U{202F}', '\U{205F}', '\U{3000}'
  }

  predicate IsJsWhitespace(c: char) {
    c in JsWhitespace
  }

  predicate AllWhitespace(s: string) {
    forall i :: 0 <= i < |s| ==> IsJsWhitespace(s[i])
  }

  /** Neither the first nor the last character is white space. */
  predicate NoEdgeWhitespace(s: string) {
    s == [] || (!IsJsWhitespace(s[0]) && !IsJsWhitespace(s[|s| - 1]))
  }

  /** The leading white space removed: a suffix of `s` starting at its first other character. */
  function TrimStart(s: string): (r: string)
    ensures |r| <= |s| && r == s[|s| - |r|..]
    ensures AllWhitespace(s[..|s| - |r|])
    ensures r == [] || !IsJsWhitespace(r[0])
    decreases |s|
  {
    if s != [] && IsJsWhitespace(s[0]) then
      var r := TrimStart(s[1..]);
      assert s[1..][..|s| - 1 - |r|] == s[1..|s| - |r|];
      r
    else s
  }

  /** The trailing white space removed: a prefix of `s` ending at its last other character. */
  function TrimEnd(s: string): (r: string)
    ensures |r| <= |s| && r == s[..|r|]
    ensures AllWhitespace(s[|r|..])
    ensures r == [] || !IsJsWhitespace(r[|r| - 1])
    decreases |s|
  {
    if s != [] && IsJsWhitespace(s[|s| - 1]) then
      var r := TrimEnd(s[..|s| - 1]);
      assert s[|r|..] == s[..|s| - 1][|r|..] + [s[|s| - 1]];
      r
    else s
  }

  /** `r` sits at offset `a` of `s` with only white space before and after it. */
  predicate TrimmedAt(s: string, r: string, a: int) {
    0 <= a <= |s| - |r| && r == s[a..a + |r|] && AllWhitespace(s[..a]) && AllWhitespace(s[a + |r|..])
  }

  /**
   * String.prototype.trim: the part of `s` between its leading and trailing
   * white space. The result has no white space at either edge, is empty
   * exactly when `s` is all white space, and leaves a string without edge
   * white space as it is.
   */
  function Trim(s: string): (r: string)
    ensures NoEdgeWhitespace(r)
    ensures r == [] <==> AllWhitespace(s)
    ensures NoEdgeWhitespace(s) ==> r == s
    ensures |r| <= |s|
    ensures exists a :: TrimmedAt(s, r, a)
  {
    TrimIsClean(s);
    TrimEmptyIffBlank(s);
    TrimIsInfix(s);
    TrimEnd(TrimStart(s))
  }

  /** Trimming keeps the middle of `s`: white space before it, white space after it. */
  lemma TrimIsInfix(s: string)
    ensures exists a :: TrimmedAt(s, TrimEnd(TrimStart(s)), a)
  {
    var t := TrimStart(s);
    var r := TrimEnd(t);
    var a := |s| - |t|;
    assert t == s[a..];
    assert r == t[..|r|] == s[a..a + |r|];
    assert AllWhitespace(s[..a]);
    assert t[|r|..] == s[a + |r|..];
    assert AllWhitespace(s[a + |r|..]);
    assert TrimmedAt(s, r, a);
  }

  /** Trimming leaves no white space at either edge. */
  lemma TrimIsClean(s: string)
    ensures NoEdgeWhitespace(TrimEnd(TrimStart(s)))
  {
    var t := TrimStart(s);
    var r := TrimEnd(t);
    assert r != [] ==> r[0] == t[0];
  }

  /** Trimming leaves nothing exactly when the text is all white space. */
  lemma TrimEmptyIffBlank(s: string)
    ensures TrimEnd(TrimStart(s)) == [] <==> AllWhitespace(s)
  {
    var t := TrimStart(s);
    var a := |s| - |t|;
    assert t != [] ==> t[0] == s[a];
    if TrimEnd(t) == [] {
      assert t[0..] == t;
      assert s[..a] == s;
    }
  }

  /** The characters of the pattern /^[0-9A-Za-z._-]+$/. */
  predicate IsSafeChar(c: char) {
    ('0' <= c <= '9') || ('A' <= c <= 'Z') || ('a' <= c <= 'z') || c == '.' || c == '_' || c == '-'
  }

  predicate AllSafe(s: string) {
    forall i :: 0 <= i < |s| ==> IsSafeChar(s[i])
  }

  /**
   * `String(value || '')`: `value` is the text of a truthy value, None for a
   * missing or falsy one (undefined, null, '', 0, false).
   */
  function RawText(value: Option<string>): (s: string)
    ensures value.Some? ==> s == value.value
    ensures value.None? ==> s == ""
  {
    value.GetOr("")
  }

  /**
   * toSafePathSegment: the trimmed text when it is non-empty and made only of
   * [0-9A-Za-z._-], null otherwise.
   */
  function ToSafePathSegment(value: Option<string>): (r: Option<string>)
    ensures r.Some? ==> r.value == Trim(RawText(value)) && r.value != [] && AllSafe(r.value)
    ensures Trim(RawText(value)) != [] && AllSafe(Trim(RawText(value))) ==> r == Some(Trim(RawText(value)))
  {
    var raw := Trim(RawText(value));
    if raw == [] then None
    else if AllSafe(raw) then Some(raw)
    else None
  }

  /** A missing, empty or white-space-only value is refused. */
  lemma BlankIsRefused(value: Option<string>)
    requires value.None? || AllWhitespace(value.value)
    ensures ToSafePathSegment(value).None?
  {
  }

  /**
   * An accepted segment is exactly the trimmed input, non-empty, made of
   * [0-9A-Za-z._-] only; it has no white space at either edge and no '/'.
   */
  lemma AcceptedSegmentIsClean(value: Option<string>)
    requires ToSafePathSegment(value).Some?
    ensures var v := ToSafePathSegment(value).value;
      && v == Trim(RawText(value)) && v != [] && AllSafe(v)
      && NoEdgeWhitespace(v) && '/' !in v
  {
  }

  /** Validating an accepted segment again accepts it unchanged. */
  lemma SafePathSegmentIdempotent(value: Option<string>)
    requires ToSafePathSegment(value).Some?
    ensures ToSafePathSegment(ToSafePathSegment(value)) == ToSafePathSegment(value)
  {
    var v := ToSafePathSegment(value).value;
    assert !IsJsWhitespace(v[0]) by { assert IsSafeChar(v[0]); }
    assert !IsJsWhitespace(v[|v| - 1]) by { assert IsSafeChar(v[|v| - 1]); }
    assert Trim(v) == v;
  }

  /** The pattern admits the segments "." and "..", so a version ".." names the parent directory. */
  lemma DotSegmentsAccepted()
    ensures ToSafePathSegment(Some("..")) == Some("..")
    ensures ToSafePathSegment(Some(".")) == Some(".")
  {
    assert NoEdgeWhitespace("..");
    assert NoEdgeWhitespace(".");
  }

  /** What one manifest fetch yields: an exception (network or JSON), a non-ok response, or the manifest's version. */
  datatype FetchOutcome = Threw | NotOk | Ok(version: Option<string>)

  /** The safe version a fetch outcome contributes, if any. */
  function CandidateVersion(o: FetchOutcome): (r: Option<string>)
    ensures o.Threw? || o.NotOk? ==> r.None?
    ensures o.Ok? ==> r == ToSafePathSegment(o.version)
  {
    if o.Ok? then ToSafePathSegment(o.version) else None
  }

  /** The manifests fetchManifestVersion tries, in order, relative to the boot module. */
  const ManifestCandidates: seq<string> := ["../manifest.json", "../manifest.firefox.json"]

  /**
   * The first-match loop of fetchManifestVersion over the outcomes of the
   * candidates in order: the safe version of the first outcome that has
   * one, None when none has.
   */
  function FirstSafeVersion(outcomes: seq<FetchOutcome>): (r: Option<string>)
    ensures r.Some? ==> AllSafe(r.value) && r.value != []
  {
    if outcomes == [] then None
    else if CandidateVersion(outcomes[0]).Some? then CandidateVersion(outcomes[0])
    else FirstSafeVersion(outcomes[1..])
  }

  /**
   * FirstSafeVersion is the first match: None exactly when no outcome has a
   * safe version, and otherwise the version of an outcome all of whose
   * predecessors have none.
   */
  lemma {:induction false} FirstSafeVersionIsFirstMatch(outcomes: seq<FetchOutcome>)
    ensures var r := FirstSafeVersion(outcomes);
      && (r.None? <==> forall i :: 0 <= i < |outcomes| ==> CandidateVersion(outcomes[i]).None?)
      && (r.Some? ==> exists i :: 0 <= i < |outcomes| && CandidateVersion(outcomes[i]) == r
                                 && forall j :: 0 <= j < i ==> CandidateVersion(outcomes[j]).None?)
  {
    if outcomes == [] || CandidateVersion(outcomes[0]).Some? {
      return;
    }
    var r := FirstSafeVersion(outcomes[1..]);
    FirstSafeVersionIsFirstMatch(outcomes[1..]);
    if r.Some? {
      var i :| 0 <= i < |outcomes[1..]| && CandidateVersion(outcomes[1..][i]) == r
               && forall j :: 0 <= j < i ==> CandidateVersion(outcomes[1..][j]).None?;
      assert CandidateVersion(outcomes[i + 1]) == r;
      forall j | 0 <= j < i + 1
        ensures CandidateVersion(outcomes[j]).None?
      {
        if j > 0 { assert outcomes[j] == outcomes[1..][j - 1]; }
      }
    } else {
      forall i | 0 <= i < |outcomes|
        ensures CandidateVersion(outcomes[i]).None?
      {
        if i > 0 { assert outcomes[i] == outcomes[1..][i - 1]; }
      }
    }
  }

  /**
   * fetchManifestVersion with `fetch` giving each manifest's outcome:
   * manifest.json's safe version if it has one, else manifest.firefox.json's,
   * else None.
   */
  function FetchManifestVersion(fetch: string -> FetchOutcome): (r: Option<string>)
    ensures CandidateVersion(fetch(ManifestCandidates[0])).Some? ==> r == CandidateVersion(fetch(ManifestCandidates[0]))
    ensures CandidateVersion(fetch(ManifestCandidates[0])).None? ==> r == CandidateVersion(fetch(ManifestCandidates[1]))
  {
    var outcomes := [fetch(ManifestCandidates[0]), fetch(ManifestCandidates[1])];
    assert outcomes[1..] == [fetch(ManifestCandidates[1])];
    assert outcomes[1..][1..] == [];
    assert FirstSafeVersion(outcomes[1..]) == CandidateVersion(fetch(ManifestCandidates[1]));
    FirstSafeVersion(outcomes)
  }

  /** The unversioned entry module. */
  const MainModule: string := "./main.js"

  /** The entry module of the versioned tree. */
  function VersionedMain(version: string): (m: string)
    ensures |m| == |version| + 17 && m[5..|m| - 12] == version
  {
    "../v/" + version + "/src/main.js"
  }

  /** Different versions import different entry modules: the path determines the version. */
  lemma VersionedMainInjective(a: string, b: string)
    ensures VersionedMain(a) == VersionedMain(b) ==> a == b
  {
    if VersionedMain(a) == VersionedMain(b) {
      var m := VersionedMain(a);
      assert a == m[5..|m| - 12];
    }
  }

  /**
   * boot: the modules it imports, in order, given the page's protocol, the
   * manifest fetches, and which imports succeed. An extension page imports
   * only main.js; on the web a safe version's entry module is tried first
   * and main.js follows only when that import fails; without a version,
   * main.js alone.
   */
  function BootImports(location: Option<string>, fetch: string -> FetchOutcome, importOk: string -> bool): (imports: seq<string>)
    ensures IsExtensionProtocol(location) ==> imports == [MainModule]
    ensures !IsExtensionProtocol(location) && FetchManifestVersion(fetch).None? ==> imports == [MainModule]
    ensures !IsExtensionProtocol(location) && FetchManifestVersion(fetch).Some? ==>
      var entry := VersionedMain(FetchManifestVersion(fetch).value);
      imports == if importOk(entry) then [entry] else [entry, MainModule]
  {
    if IsExtensionProtocol(location) then [MainModule]
    else
      var version := FetchManifestVersion(fetch);
      if version.Some? then
        var entry := VersionedMain(version.value);
        if importOk(entry) then [entry] else [entry, MainModule]
      else [MainModule]
  }

  /**
   * Boot always ends with a successful versioned import or with main.js, and
   * a versioned module is only ever the first import, only off an extension
   * page, and only for a safe version from a manifest.
   */
  lemma BootEndsWithMainOrVersioned(location: Option<string>, fetch: string -> FetchOutcome, importOk: string -> bool)
    ensures var imports := BootImports(location, fetch, importOk);
      && 1 <= |imports| <= 2
      && (imports[|imports| - 1] == MainModule || importOk(imports[|imports| - 1]))
      && (imports[0] != MainModule ==>
            && !IsExtensionProtocol(location)
            && FetchManifestVersion(fetch).Some?
            && AllSafe(FetchManifestVersion(fetch).value)
            && imports[0] == VersionedMain(FetchManifestVersion(fetch).value))
  {
    var version := FetchManifestVersion(fetch);
    if !IsExtensionProtocol(location) && version.Some? {
      var outcomes := [fetch(ManifestCandidates[0]), fetch(ManifestCandidates[1])];
      assert |VersionedMain(version.value)| != |MainModule|;
    }
  }
}
