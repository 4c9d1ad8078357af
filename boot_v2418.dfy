/**
 * The boot helpers of v2.4.18 (v/2.4.18/src/boot.js): on top of the v2.4.16
 * helpers, a coalesced `--app-height` update read from the visual viewport,
 * and a stylesheet link pointed at the versioned tree before the versioned
 * entry module is imported.
 */
module BootV2418 {
  import opened Wrappers
  import opened BootV2416

  /**
   * The height updateAppHeight writes: `visualViewport?.height || innerHeight || 0`,
   * where None means the chain ended in 0 and nothing is written.
   */
  function AppHeightOf(visualHeight: Option<int>, innerHeight: int): (h: Option<int>)
    ensures h.Some? ==> h.value != 0
    ensures h.None? <==> (visualHeight.None? || visualHeight.value == 0) && innerHeight == 0
    ensures visualHeight.Some? && visualHeight.value != 0 ==> h == visualHeight
    ensures (visualHeight.None? || visualHeight.value == 0) && innerHeight != 0 ==> h == Some(innerHeight)
  {
    var height := if visualHeight.Some? && visualHeight.value != 0 then visualHeight.value else innerHeight;
    if height == 0 then None else Some(height)
  }

  /** The one callback this scheduler hands to requestAnimationFrame. */
  datatype Frame = UpdateAppHeightFrame

  /** The `--app-height` state of v/2.4.18/src/boot.js. */
  class AppHeightScheduler {
    /** appHeightRafId != 0. */
    var rafPending: bool
    /** The frames requested and not yet run. */
    var frames: seq<Frame>
    /** --app-height, None while it has never been written. */
    var appHeight: Option<int>

    /** Exactly one update frame is pending when the id is set, none otherwise. */
    ghost predicate Valid()
      reads this
    {
      frames == (if rafPending then [UpdateAppHeightFrame] else [])
    }

    constructor ()
      ensures Valid() && !rafPending && appHeight.None?
    {
      rafPending := false;
      frames := [];
      appHeight := None;
    }

    /** updateAppHeight: clear the id, then write the height unless it is 0. */
    method UpdateAppHeight(visualHeight: Option<int>, innerHeight: int)
      modifies this`rafPending, this`appHeight
      ensures !rafPending
      ensures appHeight == (if AppHeightOf(visualHeight, innerHeight).Some? then AppHeightOf(visualHeight, innerHeight) else old(appHeight))
    {
      rafPending := false;
      var height := if visualHeight.Some? && visualHeight.value != 0 then visualHeight.value else innerHeight;
      if height == 0 {
        return;
      }
      appHeight := Some(height);
    }

    /**
     * scheduleAppHeightUpdate, also the listener of resize, orientationchange,
     * pageshow, the visual viewport's resize and scroll, focusin and focusout:
     * request a frame unless one is pending.
     */
    method ScheduleAppHeightUpdate()
      requires Valid()
      modifies this`rafPending, this`frames
      ensures Valid() && rafPending
      ensures frames == (if old(rafPending) then old(frames) else old(frames) + [UpdateAppHeightFrame])
    {
      if rafPending {
        return;
      }
      rafPending := true;
      frames := frames + [UpdateAppHeightFrame];
    }

    /** An animation frame: the pending update, if any, runs; afterwards none is pending. */
    method FireFrame(visualHeight: Option<int>, innerHeight: int)
      requires Valid()
      modifies this`rafPending, this`frames, this`appHeight
      ensures Valid() && !rafPending && frames == []
      ensures appHeight == if old(rafPending) && AppHeightOf(visualHeight, innerHeight).Some?
                           then AppHeightOf(visualHeight, innerHeight) else old(appHeight)
    {
      var callbacks := frames;
      frames := [];
      if callbacks != [] {
        UpdateAppHeight(visualHeight, innerHeight);
      }
    }
  }

  /** A <link> element: its rel and its href attribute. */
  datatype Link = Link(rel: string, href: string)

  predicate EndsWith(s: string, suffix: string) {
    |suffix| <= |s| && s[|s| - |suffix|..] == suffix
  }

  const MainStylesheet: string := "styles/main.css"

  /** The selector link[rel="stylesheet"][href$="styles/main.css"] (the "/styles/main.css" alternative adds nothing). */
  predicate IsMainStylesheet(l: Link) {
    l.rel == "stylesheet" && EndsWith(l.href, MainStylesheet)
  }

  /** document.querySelector for that selector: the index of the first matching link. */
  function FirstMainStylesheet(links: seq<Link>): (k: Option<nat>)
    ensures k.Some? ==> k.value < |links| && IsMainStylesheet(links[k.value])
                        && forall j :: 0 <= j < k.value ==> !IsMainStylesheet(links[j])
    ensures k.None? ==> forall j :: 0 <= j < |links| ==> !IsMainStylesheet(links[j])
  {
    if links == [] then None
    else if IsMainStylesheet(links[0]) then Some(0)
    else
      var k := FirstMainStylesheet(links[1..]);
      if k.Some? then Some(k.value + 1) else None
  }

  /** The versioned stylesheet's URL, `siteRoot` being the directory that holds src/ and v/. */
  function VersionedHref(siteRoot: string, version: string): (href: string)
    ensures EndsWith(href, MainStylesheet)
  {
    var href := siteRoot + "v/" + version + "/" + MainStylesheet;
    assert href[|href| - |MainStylesheet|..] == MainStylesheet;
    href
  }

  /**
   * The links after applyVersionedStylesheet(version): unchanged for an
   * unsafe version; otherwise the first main stylesheet link gets the
   * versioned href, or, when there is none, one such link is appended to the
   * head (and nothing happens without a head).
   */
  function StylesheetLinks(links: seq<Link>, hasHead: bool, version: string, siteRoot: string): seq<Link> {
    var safe := ToSafePathSegment(Some(version));
    if safe.None? then links
    else
      var href := VersionedHref(siteRoot, safe.value);
      var existing := FirstMainStylesheet(links);
      if existing.Some? then links[existing.value := links[existing.value].(href := href)]
      else if hasHead then links + [Link("stylesheet", href)]
      else links
  }

  /** The document's link elements, in document order, and whether it has a head. */
  class Document {
    var links: seq<Link>
    const hasHead: bool

    constructor (links: seq<Link>, hasHead: bool)
      ensures this.links == links && this.hasHead == hasHead
    {
      this.links := links;
      this.hasHead := hasHead;
    }

    /** applyVersionedStylesheet. */
    method ApplyVersionedStylesheet(version: string, siteRoot: string)
      modifies this`links
      ensures links == StylesheetLinks(old(links), hasHead, version, siteRoot)
    {
      var safeVersion := ToSafePathSegment(Some(version));
      if safeVersion.None? {
        return;
      }
      var versionedHref := VersionedHref(siteRoot, safeVersion.value);
      var existingLink := FirstMainStylesheet(links);
      if existingLink.Some? {
        links := links[existingLink.value := links[existingLink.value].(href := versionedHref)];
        return;
      }
      if hasHead {
        links := links + [Link("stylesheet", versionedHref)];
      }
    }
  }

  /**
   * What applyVersionedStylesheet does, link by link: an unsafe version
   * changes nothing; otherwise either exactly the first main stylesheet link
   * has its href replaced by the versioned one, or exactly one link to the
   * versioned stylesheet is appended, or (without a head and without a
   * matching link) nothing changes.
   */
  lemma StylesheetRewriteOrAppend(links: seq<Link>, hasHead: bool, version: string, siteRoot: string)
    ensures var r := StylesheetLinks(links, hasHead, version, siteRoot);
      var safe := ToSafePathSegment(Some(version));
      && (safe.None? ==> r == links)
      && (safe.Some? ==>
            var href := VersionedHref(siteRoot, safe.value);
            || (exists k :: 0 <= k < |links| && IsMainStylesheet(links[k])
                  && (forall j :: 0 <= j < k ==> !IsMainStylesheet(links[j]))
                  && |r| == |links| && r[k] == Link(links[k].rel, href)
                  && forall j :: 0 <= j < |links| && j != k ==> r[j] == links[j])
            || ((forall j :: 0 <= j < |links| ==> !IsMainStylesheet(links[j]))
                  && hasHead && r == links + [Link("stylesheet", href)])
            || ((forall j :: 0 <= j < |links| ==> !IsMainStylesheet(links[j]))
                  && !hasHead && r == links))
  {
    var safe := ToSafePathSegment(Some(version));
    if safe.Some? {
      var existing := FirstMainStylesheet(links);
      if existing.Some? {
        var k := existing.value;
        var r := StylesheetLinks(links, hasHead, version, siteRoot);
        assert |r| == |links| && r[k] == Link(links[k].rel, VersionedHref(siteRoot, safe.value));
        assert forall j :: 0 <= j < |links| && j != k ==> r[j] == links[j];
      }
    }
  }

  /**
   * Applying the same version twice leaves the links as applying it once:
   * the rewritten or appended link is the first match the second time.
   */
  lemma StylesheetIdempotent(links: seq<Link>, hasHead: bool, version: string, siteRoot: string)
    ensures var once := StylesheetLinks(links, hasHead, version, siteRoot);
      StylesheetLinks(once, hasHead, version, siteRoot) == once
  {
    var safe := ToSafePathSegment(Some(version));
    if safe.Some? {
      var href := VersionedHref(siteRoot, safe.value);
      var once := StylesheetLinks(links, hasHead, version, siteRoot);
      var existing := FirstMainStylesheet(links);
      if existing.Some? {
        var k := existing.value;
        assert IsMainStylesheet(once[k]);
        FirstMatchIs(once, k);
      } else if hasHead {
        assert IsMainStylesheet(once[|links|]);
        FirstMatchIs(once, |links|);
      }
    }
  }

  /** A matching link with no match before it is the one querySelector finds. */
  lemma FirstMatchIs(links: seq<Link>, k: nat)
    requires k < |links| && IsMainStylesheet(links[k])
    requires forall j :: 0 <= j < k ==> !IsMainStylesheet(links[j])
    ensures FirstMainStylesheet(links) == Some(k)
  {
  }

  /**
   * boot: schedule the first app-height update, then on the web with a safe
   * manifest version point the stylesheet at the versioned tree before
   * importing; the imports follow the v2.4.16 order. `fetch` and `importOk`
   * stand for the manifest fetches and the dynamic imports.
   */
  method Boot(app: AppHeightScheduler, doc: Document, location: Option<string>,
              fetch: string -> FetchOutcome, importOk: string -> bool, siteRoot: string)
    returns (imports: seq<string>)
    requires app.Valid()
    modifies app`rafPending, app`frames, doc`links
    ensures app.Valid() && app.rafPending
    ensures imports == BootImports(location, fetch, importOk)
    ensures doc.links == if !IsExtensionProtocol(location) && FetchManifestVersion(fetch).Some?
                         then StylesheetLinks(old(doc.links), doc.hasHead, FetchManifestVersion(fetch).value, siteRoot)
                         else old(doc.links)
  {
    app.ScheduleAppHeightUpdate();
    if IsExtensionProtocol(location) {
      return [MainModule];
    }
    var version := FetchManifestVersion(fetch);
    if version.Some? {
      doc.ApplyVersionedStylesheet(version.value, siteRoot);
      var entry := VersionedMain(version.value);
      if importOk(entry) {
        return [entry];
      }
      return [entry, MainModule];
    }
    return [MainModule];
  }
}
