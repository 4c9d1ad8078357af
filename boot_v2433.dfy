/**
 * The boot helpers of v2.4.33 (v/2.4.33/src/boot.js): `--app-height` now
 * follows the layout viewport (innerHeight, then the root element's client
 * height), and text-input focus changes start a burst of per-frame updates
 * whose deadline only ever moves later. The stylesheet, manifest and import
 * helpers are those of the earlier boot files.
 */
module BootV2433 {
  import opened Wrappers
  import opened Keyboard
  import opened BootV2416
  import BootV2418

  /** scheduleAppHeightBurst's default duration, and the one after a text input loses focus. */
  const FocusInBurstMs: int := 1800
  const FocusOutBurstMs: int := 600

  /**
   * The height updateAppHeight writes: `innerHeight || clientHeight || 0`,
   * where None means the chain ended in 0 and nothing is written.
   */
  function LayoutAppHeight(innerHeight: int, clientHeight: int): (h: Option<int>)
    ensures h.Some? ==> h.value != 0
    ensures h.None? <==> innerHeight == 0 && clientHeight == 0
    ensures innerHeight != 0 ==> h == Some(innerHeight)
    ensures innerHeight == 0 && clientHeight != 0 ==> h == Some(clientHeight)
  {
    var height := if innerHeight != 0 then innerHeight else clientHeight;
    if height == 0 then None else Some(height)
  }

  /** The callbacks this module hands to requestAnimationFrame. */
  datatype Frame = UpdateAppHeightFrame | BurstTickFrame

  /** No callback is requested twice. */
  predicate Distinct(q: seq<Frame>) {
    forall i, j :: 0 <= i < j < |q| ==> q[i] != q[j]
  }

  /** The `--app-height` state of v/2.4.33/src/boot.js. */
  class AppHeightScheduler {
    /** appHeightRafId != 0. */
    var rafPending: bool
    /** appHeightBurstRafId != 0. */
    var burstPending: bool
    /** appHeightBurstUntilMs. */
    var burstUntilMs: int
    /** The frames requested and not yet run, in request order. */
    var frames: seq<Frame>
    /** --app-height, None while it has never been written. */
    var appHeight: Option<int>

    /** Each id is set exactly when its callback is pending, and each callback is pending at most once. */
    ghost predicate Valid()
      reads this
    {
      && (rafPending <==> UpdateAppHeightFrame in frames)
      && (burstPending <==> BurstTickFrame in frames)
      && Distinct(frames)
    }

    constructor ()
      ensures Valid() && !rafPending && !burstPending && burstUntilMs == 0 && appHeight.None?
    {
      rafPending := false;
      burstPending := false;
      burstUntilMs := 0;
      frames := [];
      appHeight := None;
    }

    /** updateAppHeight: always clear the update id, then write the height unless it is 0. */
    method UpdateAppHeight(innerHeight: int, clientHeight: int)
      modifies this`rafPending, this`appHeight
      ensures !rafPending
      ensures appHeight == (if LayoutAppHeight(innerHeight, clientHeight).Some? then LayoutAppHeight(innerHeight, clientHeight) else old(appHeight))
    {
      rafPending := false;
      var height := if innerHeight != 0 then innerHeight else clientHeight;
      if height == 0 {
        return;
      }
      appHeight := Some(height);
    }

    /** scheduleAppHeightUpdate: request the update frame unless it is pending. */
    method ScheduleAppHeightUpdate()
      requires Valid()
      modifies this`rafPending, this`frames
      ensures Valid() && rafPending
      ensures frames == (if old(rafPending) then old(frames) else old(frames) + [UpdateAppHeightFrame])
    {
      if rafPending {
        return;
      }
      rafPending := true;
      frames := frames + [UpdateAppHeightFrame];
    }

    /**
     * scheduleAppHeightBurst: move the deadline to `now + durationMs` unless
     * it is already later, and start the tick loop unless it runs.
     */
    method ScheduleAppHeightBurst(now: int, durationMs: int)
      requires Valid()
      modifies this`burstUntilMs, this`burstPending, this`frames
      ensures Valid() && burstPending
      ensures burstUntilMs == Max(old(burstUntilMs), now + durationMs)
      ensures burstUntilMs >= old(burstUntilMs) && burstUntilMs >= now + durationMs
      ensures frames == (if old(burstPending) then old(frames) else old(frames) + [BurstTickFrame])
    {
      burstUntilMs := Max(burstUntilMs, now + durationMs);
      if burstPending {
        return;
      }
      burstPending := true;
      frames := frames + [BurstTickFrame];
    }

    /** The burst tick: clear its id, update the height, and request itself again while `now` is before the deadline. */
    method RunBurstTick(now: int, innerHeight: int, clientHeight: int)
      modifies this`burstPending, this`rafPending, this`appHeight, this`frames
      ensures !rafPending
      ensures burstPending == (now < burstUntilMs)
      ensures frames == old(frames) + (if now < burstUntilMs then [BurstTickFrame] else [])
      ensures appHeight == (if LayoutAppHeight(innerHeight, clientHeight).Some? then LayoutAppHeight(innerHeight, clientHeight) else old(appHeight))
    {
      burstPending := false;
      UpdateAppHeight(innerHeight, clientHeight);
      if now < burstUntilMs {
        burstPending := true;
        frames := frames + [BurstTickFrame];
      }
    }

    /**
     * An animation frame at time `now`: every callback requested before it
     * runs once, in order. Afterwards no update is pending, and the burst
     * loop is pending again exactly when it was running and the deadline is
     * still ahead; the height was written if any callback ran.
     */
    method FireFrame(now: int, innerHeight: int, clientHeight: int)
      requires Valid()
      modifies this`burstPending, this`rafPending, this`appHeight, this`frames
      ensures Valid()
      ensures !rafPending
      ensures burstPending <==> old(burstPending) && now < burstUntilMs
      ensures frames == (if old(burstPending) && now < burstUntilMs then [BurstTickFrame] else [])
      ensures appHeight == if old(frames) != [] && LayoutAppHeight(innerHeight, clientHeight).Some?
                           then LayoutAppHeight(innerHeight, clientHeight) else old(appHeight)
    {
      var callbacks := frames;
      frames := [];
      var i := 0;
      while i < |callbacks|
        invariant 0 <= i <= |callbacks| && callbacks == old(frames)
        invariant Distinct(callbacks)
        invariant rafPending ==> UpdateAppHeightFrame in callbacks[i..]
        invariant frames == (if BurstTickFrame in callbacks[..i] && now < burstUntilMs then [BurstTickFrame] else [])
        invariant burstPending <==> BurstTickFrame in callbacks[i..] || frames != []
        invariant appHeight == if i > 0 && LayoutAppHeight(innerHeight, clientHeight).Some?
                               then LayoutAppHeight(innerHeight, clientHeight) else old(appHeight)
      {
        assert callbacks[i..] == [callbacks[i]] + callbacks[i + 1..];
        assert callbacks[..i + 1] == callbacks[..i] + [callbacks[i]];
        match callbacks[i] {
          case UpdateAppHeightFrame =>
            UpdateAppHeight(innerHeight, clientHeight);
          case BurstTickFrame =>
            assert BurstTickFrame !in callbacks[..i];
            assert BurstTickFrame !in callbacks[i + 1..];
            RunBurstTick(now, innerHeight, clientHeight);
        }
        i := i + 1;
      }
    }

    /** The focusin listener: one plain update, and a default-length burst for a text input. */
    method FocusIn(target: Option<Element>, now: int)
      requires Valid()
      modifies this`rafPending, this`frames, this`burstUntilMs, this`burstPending
      ensures Valid() && rafPending
      ensures IsTextInputLike(target) ==> burstPending && burstUntilMs == Max(old(burstUntilMs), now + FocusInBurstMs)
      ensures !IsTextInputLike(target) ==> burstPending == old(burstPending) && burstUntilMs == old(burstUntilMs)
      ensures frames == old(frames) + (if old(rafPending) then [] else [UpdateAppHeightFrame])
                        + (if IsTextInputLike(target) && !old(burstPending) then [BurstTickFrame] else [])
    {
      ScheduleAppHeightUpdate();
      if IsTextInputLike(target) {
        ScheduleAppHeightBurst(now, FocusInBurstMs);
      }
    }

    /** The focusout listener: one plain update, and a short burst for a text input. */
    method FocusOut(target: Option<Element>, now: int)
      requires Valid()
      modifies this`rafPending, this`frames, this`burstUntilMs, this`burstPending
      ensures Valid() && rafPending
      ensures IsTextInputLike(target) ==> burstPending && burstUntilMs == Max(old(burstUntilMs), now + FocusOutBurstMs)
      ensures !IsTextInputLike(target) ==> burstPending == old(burstPending) && burstUntilMs == old(burstUntilMs)
      ensures frames == old(frames) + (if old(rafPending) then [] else [UpdateAppHeightFrame])
                        + (if IsTextInputLike(target) && !old(burstPending) then [BurstTickFrame] else [])
    {
      ScheduleAppHeightUpdate();
      if IsTextInputLike(target) {
        ScheduleAppHeightBurst(now, FocusOutBurstMs);
      }
    }
  }

  /**
   * fetchManifestVersion as a loop over the candidates: it returns the
   * first safe version, skipping exceptions, non-ok responses and unsafe
   * versions, and null when no candidate yields one.
   */
  method FetchManifestVersionLoop(fetch: string -> FetchOutcome) returns (version: Option<string>)
    ensures version == FetchManifestVersion(fetch)
    ensures version.Some? ==> AllSafe(version.value) && version.value != []
  {
    var k := 0;
    while k < |ManifestCandidates|
      invariant 0 <= k <= |ManifestCandidates|
      invariant forall j :: 0 <= j < k ==> CandidateVersion(fetch(ManifestCandidates[j])).None?
    {
      var response := fetch(ManifestCandidates[k]);
      if response.Ok? {
        var safe := ToSafePathSegment(response.version);
        if safe.Some? {
          return safe;
        }
      }
      k := k + 1;
    }
    return None;
  }

  /**
   * boot: start the app-height updates, then on the web with a safe manifest
   * version point the stylesheet at the versioned tree before importing; the
   * imports follow the v2.4.16 order.
   */
  method Boot(app: AppHeightScheduler, doc: BootV2418.Document, location: Option<string>,
              fetch: string -> FetchOutcome, importOk: string -> bool, siteRoot: string)
    returns (imports: seq<string>)
    requires app.Valid()
    modifies app`rafPending, app`frames, doc`links
    ensures app.Valid() && app.rafPending
    ensures imports == BootImports(location, fetch, importOk)
    ensures doc.links == if !IsExtensionProtocol(location) && FetchManifestVersion(fetch).Some?
                         then BootV2418.StylesheetLinks(old(doc.links), doc.hasHead, FetchManifestVersion(fetch).value, siteRoot)
                         else old(doc.links)
  {
    app.ScheduleAppHeightUpdate();
    if IsExtensionProtocol(location) {
      return [MainModule];
    }
    var version := FetchManifestVersionLoop(fetch);
    if version.Some? {
      doc.ApplyVersionedStylesheet(version.value, siteRoot);
      var entry := VersionedMain(version.value);
      if importOk(entry) {
        return [entry];
      }
      return [entry, MainModule];
    }
    return [MainModule];
  }
}
