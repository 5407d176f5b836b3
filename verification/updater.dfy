/**
 * The updater of update.py: for each addon it fetches the addon's page on
 * the mods site, looks in its text for a download link on the CDN and,
 * unless in noop mode, downloads that archive and extracts it.  The network
 * is reduced to the page text the lookup returns, the download and the
 * extraction to the requests made and a flag.
 */
module Updater {
  import opened Wrappers
  import opened Text
  import opened CdnLink

  const LookupHead: string := "https://mods.curse.com/addons/wow/"
  const LookupTail: string := "/download"
  /** `'https://mods.curse.com/addons/wow/{}/download'` */
  const LookupTemplate: string := LookupHead + "{}" + LookupTail

  /**
   * The pattern as written in the source, before `.format(addon)`, cut into
   * its parts: the opening of the `url` group, the scheme, the CDN host, the
   * files path, the two digit directories, the `version` group, the
   * extension and the closing of the `url` group.
   */
  const PatternParts: seq<string> :=
    ["(?P<url>", @"http:\/\/", @"addons\.curse\.cursecdn\.com", @"\/files\/",
     @"\d+\/\d+\/", "(?P<version>.+)", @"\.zip", ")"]
  const PatternSource: string := Join(PatternParts)

  function Join(parts: seq<string>): string {
    if parts == [] then "" else parts[0] + Join(parts[1..])
  }

  lemma {:induction false} JoinNoBraces(parts: seq<string>)
    requires forall k :: 0 <= k < |parts| ==> NoBraces(parts[k])
    ensures NoBraces(Join(parts))
  {
    if parts != [] {
      JoinNoBraces(parts[1..]);
      NoBracesJoin(parts[0], Join(parts[1..]));
    }
  }

  /** The template puts the addon between the head and the tail. */
  lemma LookupFormats(addon: string)
    ensures Format(LookupTemplate, [addon]) == Some(LookupHead + (addon + LookupTail))
  {
    assert NoBraces(LookupHead) && NoBraces(LookupTail) by {
      assert forall k :: 0 <= k < |LookupHead| ==> LookupHead[k] != '{' && LookupHead[k] != '}';
    }
    FormatLastField(addon, LookupTail);
    FormatLiteral(LookupHead, "{}" + LookupTail, [addon]);
    assert LookupTemplate == LookupHead + ("{}" + LookupTail);
  }

  /** The lookup URL, `'https://mods.curse.com/addons/wow/{}/download'.format(addon)`. */
  function LookupUrl(addon: string): (url: string)
    ensures url == LookupHead + addon + LookupTail
  {
    LookupFormats(addon);
    Format(LookupTemplate, [addon]).value
  }

  /**
   * The pattern has no replacement field, so `.format(addon)` leaves it as
   * it is, whatever the addon: the search does not depend on the addon.
   */
  lemma PatternIgnoresAddon(addon: string)
    ensures Format(PatternSource, [addon]) == Some(PatternSource)
  {
    assert forall k :: 0 <= k < |PatternParts| ==> NoBraces(PatternParts[k]);
    JoinNoBraces(PatternParts);
    FormatWithoutFields(PatternSource, [addon]);
  }

  /** How `_install_addon` ends: the error log, or the success log with the version. */
  datatype Outcome = NotFound | Updated(version: string)

  /** What `_install_addon` does: the URLs it requests in order, whether it extracts, how it ends. */
  datatype Trace = Trace(requests: seq<string>, extracted: bool, outcome: Outcome)

  /** `_install_addon(session, addon)` when the lookup page reads `body`. */
  function InstallAddon(addon: string, body: string, noop: bool): (run: Trace)
    ensures |run.requests| >= 1 && run.requests[0] == LookupUrl(addon)
    ensures run.extracted <==> |run.requests| == 2
  {
    var url := LookupUrl(addon);
    match Search(body)
    case None => Trace([url], false, NotFound)
    case Some(link) =>
      if noop then Trace([url], false, Updated(link.version))
      else Trace([url, link.url], true, Updated(link.version))
  }

  /**
   * The lookup comes first.  When the page has no download link the addon
   * ends as not found and nothing else is requested or extracted.
   */
  lemma NotFoundWithoutLink(addon: string, body: string, noop: bool)
    ensures var run := InstallAddon(addon, body, noop);
      && |run.requests| >= 1 && run.requests[0] == LookupHead + addon + LookupTail
      && (run.outcome == NotFound <==> forall n: Span :: !IsMatch(body, n))
      && (run.outcome == NotFound ==> run.requests == [LookupUrl(addon)] && !run.extracted)
  {
  }

  /**
   * With a link, the addon ends updated to the link's version, which is not
   * empty and has no newline; in noop mode nothing else is requested or
   * extracted, otherwise the link is downloaded, once, and extracted.
   */
  lemma UpdatedFromLink(addon: string, body: string, noop: bool)
    requires Search(body).Some?
    ensures var run, link := InstallAddon(addon, body, noop), Search(body).value;
      && run.outcome == Updated(link.version)
      && |link.version| > 0 && '\n' !in link.version
      && (noop ==> run.requests == [LookupUrl(addon)] && !run.extracted)
      && (!noop ==> run.requests == [LookupUrl(addon), link.url] && run.extracted)
  {
    var m: Span :| IsFirst(body, m) && Search(body).value == Link(Url(body, m), Version(body, m));
    VersionOnOneLine(body, m);
  }

  /**
   * An archive is extracted exactly when one is downloaded, and everything
   * downloaded after the lookup is a `.zip` file on the CDN.
   */
  lemma DownloadsAreCdnArchives(addon: string, body: string, noop: bool)
    ensures var run := InstallAddon(addon, body, noop);
      && 1 <= |run.requests| <= 2
      && (run.extracted <==> |run.requests| == 2)
      && (|run.requests| == 2 ==> CdnArchive(run.requests[1]))
  {
    var r := Search(body);
    if r.Some? && !noop {
      var m: Span :| IsFirst(body, m) && r.value == Link(Url(body, m), Version(body, m));
      UrlEnds(body, m);
    }
  }
}
