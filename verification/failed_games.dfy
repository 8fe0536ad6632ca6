/** `load_failed_games` of retry_failed_games_render.py: the (app id, name) pairs listed
    in the failure file, one per non-blank line, the app id being the first
    whitespace-separated token and the name the remaining tokens joined by single spaces. */
module FailedGames {
  import opened Options
  import opened Sequences
  import opened Chars
  import opened PyText

  datatype FailedGame = FailedGame(appid: string, name: string)

  /** One line of the file: nothing for a blank line, else the pair it lists. */
  function ParseFailedLine(raw: string): (r: Option<FailedGame>)
    ensures r.None? <==> forall i :: 0 <= i < |raw| ==> IsPySpace(raw[i])
    ensures r.Some? ==> r.value.appid != "" && NoSpace(r.value.appid)
  {
    TrimEmptyIff(raw, IsPySpace);
    var line := Strip(raw);
    if line == "" then None
    else
      StripHasTokens(raw);
      var parts := Split(line);
      Some(FailedGame(parts[0], Join(parts[1..])))
  }

  /** The list `load_failed_games` returns for the lines of an existing file. */
  function FailedGamesOf(lines: seq<string>): seq<FailedGame>
  {
    Keep(lines, ParseFailedLine)
  }

  /** `load_failed_games`, reading the file line by line; a missing file (`None`) gives
      the empty list. */
  method LoadFailedGames(file: Option<seq<string>>) returns (failed: seq<FailedGame>)
    ensures file.None? ==> failed == []
    ensures file.Some? ==> failed == FailedGamesOf(file.value)
  {
    failed := [];
    if file.None? {
      return;
    }
    var lines := file.value;
    var i := 0;
    while i < |lines|
      invariant 0 <= i <= |lines|
      invariant failed == FailedGamesOf(lines[..i])
    {
      var raw := lines[i];
      KeepSnoc(lines, i, ParseFailedLine);
      var line := Strip(raw);
      if line != "" {
        StripHasTokens(raw);
        var parts := Split(line);
        var appid := parts[0];
        var name := Join(parts[1..]);
        failed := failed + [FailedGame(appid, name)];
      }
      i := i + 1;
    }
    assert lines[..i] == lines;
  }

  /** Each pair's app id is a single non-empty token holding no whitespace, its name is
      single-spaced, and re-splitting the line gives the app id followed by the name's
      tokens: no character but whitespace is lost. */
  lemma {:induction false} FailedLineFields(raw: string)
    requires Strip(raw) != ""
    ensures ParseFailedLine(raw).Some?
    ensures var g := ParseFailedLine(raw).value;
            g.appid != "" && NoSpace(g.appid) &&
            SingleSpaced(g.name) &&
            Split(Strip(raw)) == [g.appid] + Split(g.name) &&
            g.appid + Concat(Split(g.name)) == NonSpace(Strip(raw))
  {
    var line := Strip(raw);
    StripHasTokens(raw);
    var parts := Split(line);
    var rest := parts[1..];
    forall k | 0 <= k < |rest| ensures rest[k] != "" && NoSpace(rest[k]) {
      assert rest[k] == parts[k + 1];
    }
    JoinIsSingleSpaced(rest);
    SplitJoinRoundTrip(rest);
    assert parts == [parts[0]] + rest;
    SplitKeepsText(line);
  }

  /** Blank lines are skipped and every other line gives one pair, in file order: the
      k-th pair comes from line idx[k], the positions increase, and a line is among them
      exactly when it does not strip to nothing. */
  lemma {:induction false} FailedGamesInOrder(lines: seq<string>) returns (idx: seq<nat>)
    ensures |idx| == |FailedGamesOf(lines)|
    ensures forall k :: 0 <= k < |idx| ==>
              idx[k] < |lines| && ParseFailedLine(lines[idx[k]]) == Some(FailedGamesOf(lines)[k])
    ensures forall k, l :: 0 <= k < l < |idx| ==> idx[k] < idx[l]
    ensures forall j :: 0 <= j < |lines| ==> (Strip(lines[j]) != "" <==> j in idx)
  {
    idx := KeepIndices(lines, ParseFailedLine);
  }

  /** Runs of whitespace between the fields collapse: `730   Counter  Strike\n` lists
      app 730 as "Counter Strike". */
  lemma RunsOfSpacesCollapse(appid: string, first: string, second: string)
    requires appid != "" && NoSpace(appid)
    requires first != "" && NoSpace(first)
    requires second != "" && NoSpace(second)
    ensures ParseFailedLine(appid + "   " + first + "  " + second + "\n") ==
            Some(FailedGame(appid, first + " " + second))
  {
    var line := appid + "   " + first + "  " + second;
    var raw := line + "\n";
    StrippedLine(appid, first, second);
    SplitLine(appid, first, second);
    var parts := [appid, first, second];
    assert line != "";
    ParsedFields(raw, line, parts);
    assert parts[1..] == [first, second];
    JoinTwo(first, second);
  }

  /** A line holding only an app id lists it with the empty name. */
  lemma AppIdAlone(appid: string)
    requires appid != "" && NoSpace(appid)
    ensures ParseFailedLine(appid + "\n") == Some(FailedGame(appid, ""))
  {
    var raw := appid + "\n";
    assert raw[0] == appid[0] && raw[|raw| - 2] == appid[|appid| - 1];
    TrimOfPadded(raw, 0, |raw| - 1, IsPySpace);
    assert raw[0..|raw| - 1] == appid;
    SplitTokenThen(appid, "");
    assert appid + "" == appid;
    ParsedFields(raw, appid, [appid]);
  }

  lemma JoinTwo(first: string, second: string)
    ensures Join([first, second]) == first + " " + second
  {
    assert [first, second][1..] == [second];
  }

  lemma ParsedFields(raw: string, line: string, parts: seq<string>)
    requires Strip(raw) == line && line != "" && Split(line) == parts && parts != []
    ensures ParseFailedLine(raw) == Some(FailedGame(parts[0], Join(parts[1..])))
  {
  }

  lemma StrippedLine(appid: string, first: string, second: string)
    requires appid != "" && NoSpace(appid)
    requires first != "" && NoSpace(first)
    requires second != "" && NoSpace(second)
    ensures Strip(appid + "   " + first + "  " + second + "\n") == appid + "   " + first + "  " + second
  {
    var line := appid + "   " + first + "  " + second;
    var raw := line + "\n";
    assert raw == appid + "   " + first + "  " + second + "\n";
    assert raw[0] == appid[0] && raw[|raw| - 2] == second[|second| - 1];
    TrimOfPadded(raw, 0, |raw| - 1, IsPySpace);
    assert raw[0..|raw| - 1] == line;
  }

  lemma SplitLine(appid: string, first: string, second: string)
    requires appid != "" && NoSpace(appid)
    requires first != "" && NoSpace(first)
    requires second != "" && NoSpace(second)
    ensures Split(appid + "   " + first + "  " + second) == [appid, first, second]
  {
    Reassociate(appid, first, second);
    var tail := " " + (" " + second);
    SplitAfterSpace(' ', " " + second);
    SplitAfterSpace(' ', second);
    SplitTokenThen(second, "");
    assert second + "" == second;
    var mid := first + tail;
    SplitTokenThen(first, tail);
    var rest := " " + (" " + (" " + mid));
    SplitAfterSpace(' ', " " + (" " + mid));
    SplitAfterSpace(' ', " " + mid);
    SplitAfterSpace(' ', mid);
    SplitTokenThen(appid, rest);
  }

  lemma Reassociate(a: string, b: string, c: string)
    ensures a + "   " + b + "  " + c == a + (" " + (" " + (" " + (b + (" " + (" " + c))))))
  {
    assert "   " == " " + (" " + " ");
    assert "  " == " " + " ";
  }
}
