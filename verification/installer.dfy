/**
 * The installer of addons.py: for each addon it asks the project site for
 * the latest file and reports its progress on a ParallelStreamWriter line.
 * The HTTP response is reduced to its status code and the archive
 * extraction to a flag saying that it happened.
 */
module Installer {
  import opened Wrappers
  import opened Terminal
  import opened Display

  const CurseUrl: string := "https://wow.curseforge.com/projects"
  const LatestSuffix: string := "/files/latest"

  /** The lookup URL `_install_addon` requests for `addon`. */
  function LatestUrl(addon: string): (url: string)
    ensures |CurseUrl| + 1 + |LatestSuffix| <= |url| && AddonOf(url) == addon
  {
    var url := CurseUrl + "/" + addon + "/files/latest";
    assert url == (CurseUrl + "/") + addon + LatestSuffix;
    url
  }

  /** Reads the addon name back out of a lookup URL. */
  function AddonOf(url: string): string
    requires |CurseUrl| + 1 + |LatestSuffix| <= |url|
  {
    url[|CurseUrl| + 1 .. |url| - |LatestSuffix|]
  }

  /**
   * The lookup URL starts with the project site and a slash, ends with
   * `/files/latest`, and the addon name is what lies between.
   */
  lemma LatestUrlParts(addon: string)
    ensures |LatestUrl(addon)| == |CurseUrl| + 1 + |addon| + |LatestSuffix|
    ensures LatestUrl(addon)[..|CurseUrl| + 1] == CurseUrl + "/"
    ensures LatestUrl(addon)[|LatestUrl(addon)| - |LatestSuffix|..] == LatestSuffix
    ensures AddonOf(LatestUrl(addon)) == addon
  {
    var url := LatestUrl(addon);
    assert url == (CurseUrl + "/") + addon + LatestSuffix;
  }

  /** Different addons are looked up at different URLs. */
  lemma LatestUrlInjective(a: string, b: string)
    requires LatestUrl(a) == LatestUrl(b)
    ensures a == b
  {
    LatestUrlParts(a);
    LatestUrlParts(b);
  }

  /**
   * The statuses `_install_addon` writes, in order, on the addon's line
   * after `initialize`, given whether the response status was 200 and
   * whether the installer is in noop mode.
   */
  function Labels(ok: bool, noop: bool): (labels: seq<string>)
    ensures 2 <= |labels| <= 3 && labels[0] == "downloading"
  {
    ["downloading"] + if !ok then ["not found"] else (if noop then [] else ["extracting"]) + ["done"]
  }

  /**
   * "downloading" comes first; the last status is "done" when the status
   * was 200 and "not found" otherwise; "extracting" is written exactly when
   * the status was 200 outside noop mode.
   */
  lemma LabelsOrder(ok: bool, noop: bool)
    ensures var labels := Labels(ok, noop);
      && 2 <= |labels| <= 3 && labels[0] == "downloading"
      && labels[|labels| - 1] == (if ok then "done" else "not found")
      && ("not found" in labels <==> !ok)
      && ("done" in labels <==> ok)
      && ("extracting" in labels <==> ok && !noop)
      && (|labels| == 3 <==> ok && !noop)
  {
  }

  /** The statuses of `Labels`, as `_install_addon` writes them one after the other. */
  lemma LabelsWritten(noop: bool)
    ensures [] + ["downloading"] + ["not found"] == Labels(false, noop)
    ensures [] + ["downloading"] + ["done"] == Labels(true, true)
    ensures [] + ["downloading"] + ["extracting"] + ["done"] == Labels(true, false)
  {
  }

  /** The characters `write` emits for each status of `labels` in turn. */
  function WritesText(msg: string, item: string, labels: seq<string>, diff: nat): string
    decreases |labels|
  {
    if labels == [] then ""
    else WritesText(msg, item, labels[..|labels| - 1], diff) + WriteText(msg, item, labels[|labels| - 1], diff)
  }

  /** One more `write` extends the text of the earlier ones. */
  lemma WritesSnoc(base: string, msg: string, item: string, labels: seq<string>, status: string, diff: nat)
    ensures base + WritesText(msg, item, labels, diff) + WriteText(msg, item, status, diff)
         == base + WritesText(msg, item, labels + [status], diff)
  {
    assert (labels + [status])[..|labels|] == labels;
  }

  /** A second update at the same index overrides the first. */
  lemma UpdateTwice<T>(s: seq<T>, i: nat, a: T, b: T)
    requires i < |s|
    ensures s[i := a][i := b] == s[i := b]
  {
  }

  /**
   * The state of the writer `w` once `initialize(addon)` has put the addon's first line at
   * index `i` and the statuses of `sent` were written on it: `base` is the
   * output right after `initialize`, `rows` and `statuses` what the screen
   * and the lines show now.
   */
  ghost predicate Reported(w: ParallelStreamWriter, addon: string, i: nat, base: string,
                           sent: seq<string>, rows: seq<string>, statuses: seq<string>)
    reads w
  {
    && FirstIndex(w.lines, addon) == Some(i)
    && w.output == base + WritesText(w.msg, addon, sent, |w.lines| - i)
    && w.flushed == |w.output|
    && w.statuses == statuses
    && w.screen == Screen(rows, |w.lines|, 0)
  }

  class Installer {
    const noop: bool
    const pwriter: ParallelStreamWriter

    constructor (noop: bool)
      ensures this.noop == noop && fresh(pwriter)
      ensures pwriter.Valid() && pwriter.msg == "Installing"
      ensures pwriter.lines == [] && pwriter.output == ""
    {
      this.noop := noop;
      pwriter := new ParallelStreamWriter("Installing");
    }

    /**
     * `_install_addon(addon)` where the lookup answers with HTTP `status`.
     * It returns the URL it requested and whether the archive was extracted.
     * The addon gets a new line; the writes go to the first line registered
     * under its name (the new one unless the name was registered before),
     * and that line ends up showing the last status.
     */
    method InstallAddon(addon: string, status: int) returns (request: string, extracted: bool)
      requires pwriter.Valid()
      modifies pwriter
      ensures pwriter.Valid() && request == LatestUrl(addon)
      ensures extracted <==> status == 200 && !noop
      ensures pwriter.lines == old(pwriter.lines) + [addon]
      ensures addon in pwriter.lines && FirstIndex(pwriter.lines, addon).value <= |old(pwriter.lines)|
      ensures
        var i := FirstIndex(pwriter.lines, addon).value;
        var labels := Labels(status == 200, noop);
        var last := labels[|labels| - 1];
        Reported(pwriter, addon, i, old(pwriter.output) + (LineText(pwriter.msg, addon, "") + "\r\n"), labels,
                 (old(pwriter.screen).rows + [LineText(pwriter.msg, addon, "")])[i := LineText(pwriter.msg, addon, last)],
                 (old(pwriter.statuses) + [""])[i := last])
    {
      pwriter.Initialize(addon);
      ghost var i := FirstIndex(pwriter.lines, addon).value;
      ghost var base, rows, statuses := pwriter.output, pwriter.screen.rows, pwriter.statuses;
      ghost var msg := pwriter.msg;
      request := CurseUrl + "/" + addon + "/files/latest";
      extracted := false;

      ghost var sent: seq<string> := [];
      Report(addon, "downloading", i, base, sent, rows, statuses);
      sent := sent + ["downloading"];
      if status != 200 {
        Report(addon, "not found", i, base, sent,
               rows[i := LineText(msg, addon, "downloading")], statuses[i := "downloading"]);
        UpdateTwice(rows, i, LineText(msg, addon, "downloading"), LineText(msg, addon, "not found"));
        UpdateTwice(statuses, i, "downloading", "not found");
        LabelsWritten(noop);
        return;
      }

      ghost var shown := "downloading";
      if !noop {
        Report(addon, "extracting", i, base, sent,
               rows[i := LineText(msg, addon, shown)], statuses[i := shown]);
        UpdateTwice(rows, i, LineText(msg, addon, shown), LineText(msg, addon, "extracting"));
        UpdateTwice(statuses, i, shown, "extracting");
        sent, shown := sent + ["extracting"], "extracting";
        // the archive is extracted into the addons directory
        extracted := true;
      }
      LabelsWritten(noop);
      Report(addon, "done", i, base, sent,
             rows[i := LineText(msg, addon, shown)], statuses[i := shown]);
      UpdateTwice(rows, i, LineText(msg, addon, shown), LineText(msg, addon, "done"));
      UpdateTwice(statuses, i, shown, "done");
    }

    /** One `pwriter.write(addon, status)` on the addon's line. */
    method Report(addon: string, status: string, ghost i: nat, ghost base: string,
                  ghost sent: seq<string>, ghost rows: seq<string>, ghost statuses: seq<string>)
      requires pwriter.Valid() && Reported(pwriter, addon, i, base, sent, rows, statuses)
      modifies pwriter
      ensures pwriter.Valid() && pwriter.lines == old(pwriter.lines)
      ensures Reported(pwriter, addon, i, base, sent + [status],
                       rows[i := LineText(pwriter.msg, addon, status)], statuses[i := status])
    {
      ghost var before, d := pwriter.output, |pwriter.lines| - i;
      WritesSnoc(base, pwriter.msg, addon, sent, status, d);
      var found := pwriter.Write(addon, status);
      assert found && FirstIndex(pwriter.lines, addon).value == i;
      assert pwriter.output == before + WriteText(pwriter.msg, addon, status, d);
      assert pwriter.output == base + WritesText(pwriter.msg, addon, sent + [status], |pwriter.lines| - i);
      assert pwriter.statuses == statuses[i := status];
      assert pwriter.screen == Screen(rows[i := LineText(pwriter.msg, addon, status)], |pwriter.lines|, 0);
    }
  }
}
