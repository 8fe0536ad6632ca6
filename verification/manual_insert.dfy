/** `process_file` of manual_insert_render.py: each non-blank line of the input file is
    split at its first tab into an app id and a name, the store is asked for the app's
    details, and an update is issued for every app the store describes. Lines without a
    tab and apps without details are skipped; an exception out of `fetch_appdetails`
    ends the run. */
module ManualInsert {
  import opened Options
  import opened Chars
  import opened Sequences
  import opened PyText
  import opened AppDetails

  /** What the loop makes of one line before any request: a line that strips to
      nothing, a line with no tab (`ValueError` from the unpacking), or the stripped
      halves around the first tab. */
  datatype LineParse = Blank | Malformed(line: string) | Entry(appid: string, name: string)

  function ParseTabLine(raw: string): (r: LineParse)
    ensures r.Blank? <==> forall i :: 0 <= i < |raw| ==> IsPySpace(raw[i])
    ensures r.Malformed? <==> Strip(raw) != "" && '\t' !in Strip(raw)
    ensures r.Malformed? ==> r.line == Strip(raw)
    ensures r.Entry? ==> '\t' in Strip(raw)
  {
    TrimEmptyIff(raw, IsPySpace);
    var line := Strip(raw);
    if line == "" then Blank
    else match FirstIndexOf(line, '\t')
      case None => Malformed(line)
      case Some(k) => Entry(Strip(line[..k]), Strip(line[k + 1..]))
  }

  /** The arguments of one `update_game_in_db` call. */
  datatype Update = Update(appid: string, name: string, details: Details)

  /** How a run ended: the updates issued, in order, and whether every line was read
      (`false` when an exception escaped the loop, or the file could not be opened). */
  datatype Run = Run(updates: seq<Update>, completed: bool)

  /** What the loop does with one line, `store` giving the answer to the request for an
      app id: nothing, one update, or an exception that ends the run. */
  function LineStep(raw: string, store: string -> Response): (r: Outcome<Option<Update>>)
    ensures !ParseTabLine(raw).Entry? ==> r == Returned(None)
    ensures r.Raised? ==>
              ParseTabLine(raw).Entry? &&
              FetchAppDetails(ParseTabLine(raw).appid, store(ParseTabLine(raw).appid)) == Raised(r.error)
    ensures r.Returned? && r.value.Some? ==>
              ParseTabLine(raw) == Entry(r.value.value.appid, r.value.value.name) &&
              FetchAppDetails(r.value.value.appid, store(r.value.value.appid)) == Returned(Some(r.value.value.details))
  {
    var parsed := ParseTabLine(raw);
    if !parsed.Entry? then Returned(None)
    else match FetchAppDetails(parsed.appid, store(parsed.appid))
      case Raised(e) => Raised(e)
      case Returned(None) => Returned(None)
      case Returned(Some(d)) => Returned(Some(Update(parsed.appid, parsed.name, d)))
  }

  /** The step the loop takes on each line, for a given store. */
  function StepOf(store: string -> Response): string -> Outcome<Option<Update>>
  {
    raw => LineStep(raw, store)
  }

  /** The update a line contributes when its step does not raise. */
  function Contribution(step: string -> Outcome<Option<Update>>): string -> Option<Update>
  {
    raw => if step(raw).Raised? then None else step(raw).value
  }

  /** A loop over `lines` that takes `step` on each line, collects the updates, and stops
      at the first step that raises. */
  function Drive(lines: seq<string>, step: string -> Outcome<Option<Update>>): (run: Run)
    ensures |run.updates| <= |lines|
    ensures !run.completed ==> lines != []
    decreases |lines|
  {
    if lines == [] then Run([], true)
    else match step(lines[0])
      case Raised(_) => Run([], false)
      case Returned(u) =>
        var rest := Drive(lines[1..], step);
        Run((if u.Some? then [u.value] else []) + rest.updates, rest.completed)
  }

  /** The run of `process_file` over `lines`. */
  function ProcessLines(lines: seq<string>, store: string -> Response): Run
  {
    Drive(lines, StepOf(store))
  }

  /** `process_file`: the file's lines, or `None` when it cannot be opened (`open`
      raises, and nothing is read). */
  method ProcessFile(file: Option<seq<string>>, store: string -> Response) returns (run: Run)
    ensures file.None? ==> run == Run([], false)
    ensures file.Some? ==> run == ProcessLines(file.value, store)
  {
    if file.None? {
      return Run([], false);
    }
    run := ForEachLine(file.value, StepOf(store));
  }

  /** The `for raw in f` loop: one step per line, `continue` when the step yields no
      update, and an exception out of a step leaving the loop at once. */
  method ForEachLine(lines: seq<string>, step: string -> Outcome<Option<Update>>) returns (run: Run)
    ensures run == Drive(lines, step)
  {
    var updates: seq<Update> := [];
    var i := 0;
    while i < |lines|
      invariant 0 <= i <= |lines|
      invariant var r := Drive(lines[i..], step);
                Drive(lines, step) == Run(updates + r.updates, r.completed)
    {
      DriveStep(lines, i, step);
      var outcome := step(lines[i]);
      if outcome.Raised? {
        return Run(updates, false);
      }
      if outcome.value.Some? {
        updates := updates + [outcome.value.value];
      }
      i := i + 1;
    }
    assert lines[i..] == [];
    run := Run(updates, true);
  }

  lemma DriveStep(lines: seq<string>, i: nat, step: string -> Outcome<Option<Update>>)
    requires i < |lines|
    ensures var r := Drive(lines[i..], step);
            match step(lines[i])
            case Raised(_) => r == Run([], false)
            case Returned(u) =>
              var rest := Drive(lines[i + 1..], step);
              r == Run((if u.Some? then [u.value] else []) + rest.updates, rest.completed)
  {
    assert lines[i..][1..] == lines[i + 1..];
  }

  /** The position of the first line whose step raises, or the number of lines. */
  function FirstRaise(lines: seq<string>, step: string -> Outcome<Option<Update>>): (n: nat)
    ensures n <= |lines|
    ensures forall j :: 0 <= j < n ==> !step(lines[j]).Raised?
    ensures n < |lines| ==> step(lines[n]).Raised?
    decreases |lines|
  {
    if lines == [] || step(lines[0]).Raised? then 0
    else
      var n := 1 + FirstRaise(lines[1..], step);
      assert forall j :: 1 <= j < n ==> lines[j] == lines[1..][j - 1];
      n
  }

  /** A run issues, in order, the updates of the lines before the first line that
      raises, and it completes exactly when no line raises. */
  lemma {:induction false} DriveStopsAtFirstRaise(lines: seq<string>, step: string -> Outcome<Option<Update>>)
    ensures var n := FirstRaise(lines, step);
            Drive(lines, step) == Run(Keep(lines[..n], Contribution(step)), n == |lines|)
    decreases |lines|
  {
    if lines != [] && !step(lines[0]).Raised? {
      var n := FirstRaise(lines, step);
      DriveStopsAtFirstRaise(lines[1..], step);
      assert lines[..n][1..] == lines[1..][..n - 1];
    }
  }

  /** The same for `process_file`: it completes exactly when no line raises, and it
      issues the updates of the lines before the first one that does. */
  lemma ProcessStopsAtFirstRaise(lines: seq<string>, store: string -> Response)
    ensures var n := FirstRaise(lines, StepOf(store));
            ProcessLines(lines, store) == Run(Keep(lines[..n], Contribution(StepOf(store))), n == |lines|)
    ensures ProcessLines(lines, store).completed <==>
              forall j :: 0 <= j < |lines| ==> !LineStep(lines[j], store).Raised?
  {
    DriveStopsAtFirstRaise(lines, StepOf(store));
    var n := FirstRaise(lines, StepOf(store));
    if n < |lines| {
      assert StepOf(store)(lines[n]).Raised?;
    }
  }

  /** Lines that strip to nothing, lines without a tab and apps the store does not
      describe are skipped and the run goes on with the next line. */
  lemma SkippedLineContinues(raw: string, rest: seq<string>, store: string -> Response)
    requires LineStep(raw, store) == Returned(None)
    ensures ProcessLines([raw] + rest, store) == ProcessLines(rest, store)
  {
    var step := StepOf(store);
    var lines := [raw] + rest;
    assert lines[0] == raw && lines[1..] == rest;
    assert step(raw) == Returned(None);
    var after := Drive(rest, step);
    assert Drive(lines, step) == Run([] + after.updates, after.completed);
    assert [] + after.updates == after.updates;
  }

  /** The three reasons a line is skipped: it strips to nothing, it has no tab, or the
      store has no details for its app id. Each one, and nothing else that does not
      raise, lets the run go on with the next line. */
  lemma SkipReasons(raw: string, rest: seq<string>, store: string -> Response)
    ensures LineStep(raw, store) == Returned(None) <==>
              ParseTabLine(raw).Blank? || ParseTabLine(raw).Malformed? ||
              FetchAppDetails(ParseTabLine(raw).appid, store(ParseTabLine(raw).appid)) == Returned(None)
    ensures ParseTabLine(raw).Blank? ==> ProcessLines([raw] + rest, store) == ProcessLines(rest, store)
    ensures ParseTabLine(raw).Malformed? ==> ProcessLines([raw] + rest, store) == ProcessLines(rest, store)
    ensures ParseTabLine(raw).Entry? &&
            FetchAppDetails(ParseTabLine(raw).appid, store(ParseTabLine(raw).appid)) == Returned(None) ==>
              ProcessLines([raw] + rest, store) == ProcessLines(rest, store)
  {
    if LineStep(raw, store) == Returned(None) {
      SkippedLineContinues(raw, rest, store);
    }
  }

  /** Every update comes from a line with a tab, carries that line's stripped fields and
      the store's details for its app id, and the updates keep file order: the k-th
      comes from line idx[k], before the first line that raises. */
  lemma {:induction false} UpdatesInFileOrder(lines: seq<string>, store: string -> Response) returns (idx: seq<nat>)
    ensures var u := ProcessLines(lines, store).updates;
            |idx| == |u| &&
            (forall k :: 0 <= k < |idx| ==>
               idx[k] < FirstRaise(lines, StepOf(store)) &&
               ParseTabLine(lines[idx[k]]) == Entry(u[k].appid, u[k].name) &&
               FetchAppDetails(u[k].appid, store(u[k].appid)) == Returned(Some(u[k].details))) &&
            (forall k, l :: 0 <= k < l < |idx| ==> idx[k] < idx[l])
  {
    var step := StepOf(store);
    var n := FirstRaise(lines, step);
    DriveStopsAtFirstRaise(lines, step);
    var prefix := lines[..n];
    var kept := Keep(prefix, Contribution(step));
    assert ProcessLines(lines, store).updates == kept;
    idx := KeepIndices(prefix, Contribution(step));
    forall k | 0 <= k < |idx|
      ensures idx[k] < n &&
              ParseTabLine(lines[idx[k]]) == Entry(kept[k].appid, kept[k].name) &&
              FetchAppDetails(kept[k].appid, store(kept[k].appid)) == Returned(Some(kept[k].details))
    {
      KeptLineFields(prefix, store, kept, idx, k);
      assert prefix[idx[k]] == lines[idx[k]];
    }
  }

  /** The k-th kept update carries the fields of the line it was kept from. */
  lemma KeptLineFields(prefix: seq<string>, store: string -> Response, kept: seq<Update>, idx: seq<nat>, k: nat)
    requires KeptAt(prefix, Contribution(StepOf(store)), kept, idx) && k < |idx|
    ensures idx[k] < |prefix|
    ensures ParseTabLine(prefix[idx[k]]) == Entry(kept[k].appid, kept[k].name)
    ensures FetchAppDetails(kept[k].appid, store(kept[k].appid)) == Returned(Some(kept[k].details))
  {
    var raw := prefix[idx[k]];
    assert Contribution(StepOf(store))(raw) == Some(kept[k]);
    ContributionFields(raw, store, kept[k]);
  }

  lemma ContributionFields(raw: string, store: string -> Response, u: Update)
    requires Contribution(StepOf(store))(raw) == Some(u)
    ensures ParseTabLine(raw) == Entry(u.appid, u.name)
    ensures FetchAppDetails(u.appid, store(u.appid)) == Returned(Some(u.details))
  {
    assert LineStep(raw, store) == Returned(Some(u));
  }

  /** An entry's app id and name are both non-empty, the app id holds no tab and is
      stripped, and the name is stripped and keeps any later tab. */
  lemma EntryFields(raw: string) returns (appid: string, name: string)
    requires ParseTabLine(raw).Entry?
    ensures ParseTabLine(raw) == Entry(appid, name)
    ensures appid != "" && name != "" && '\t' !in appid
    ensures !IsPySpace(appid[0]) && !IsPySpace(appid[|appid| - 1])
    ensures !IsPySpace(name[0]) && !IsPySpace(name[|name| - 1])
  {
    var line, k := EntryShape(raw);
    appid, name := HalvesAroundTab(line, k);
  }

  lemma EntryShape(raw: string) returns (line: string, k: nat)
    requires ParseTabLine(raw).Entry?
    ensures line == Strip(raw) && line != ""
    ensures !IsPySpace(line[0]) && !IsPySpace(line[|line| - 1])
    ensures k < |line| && line[k] == '\t' && '\t' !in line[..k]
    ensures ParseTabLine(raw) == Entry(Strip(line[..k]), Strip(line[k + 1..]))
  {
    line := Strip(raw);
    k := FirstIndexOf(line, '\t').value;
  }

  /** The two halves around the first tab of a line with non-whitespace ends strip to
      non-empty strings with non-whitespace ends, the first holding no tab. */
  lemma HalvesAroundTab(line: string, k: nat) returns (appid: string, name: string)
    requires line != [] && !IsPySpace(line[0]) && !IsPySpace(line[|line| - 1])
    requires k < |line| && line[k] == '\t' && '\t' !in line[..k]
    ensures appid == Strip(line[..k]) && name == Strip(line[k + 1..])
    ensures appid != "" && name != "" && '\t' !in appid
    ensures !IsPySpace(appid[0]) && !IsPySpace(appid[|appid| - 1])
    ensures !IsPySpace(name[0]) && !IsPySpace(name[|name| - 1])
  {
    assert IsPySpace(line[k]);
    assert 0 < k < |line| - 1;
    appid := StripBefore(line, k);
    name := StripAfter(line, k);
  }

  lemma StripBefore(line: string, k: nat) returns (appid: string)
    requires 0 < k < |line| && !IsPySpace(line[0]) && '\t' !in line[..k]
    ensures appid == Strip(line[..k]) && appid != "" && '\t' !in appid
    ensures !IsPySpace(appid[0]) && !IsPySpace(appid[|appid| - 1])
  {
    var before := line[..k];
    assert before[0] == line[0];
    StripKeepsEnds(before);
    StripIsSlice(before, '\t');
    appid := Strip(before);
  }

  lemma StripAfter(line: string, k: nat) returns (name: string)
    requires k < |line| - 1 && !IsPySpace(line[|line| - 1])
    ensures name == Strip(line[k + 1..]) && name != ""
    ensures !IsPySpace(name[0]) && !IsPySpace(name[|name| - 1])
  {
    var after := line[k + 1..];
    assert after[|after| - 1] == line[|line| - 1];
    StripKeepsEnds(after);
    name := Strip(after);
  }

  /** Stripping a string that has a non-whitespace character leaves a non-empty string
      with non-whitespace ends. */
  lemma StripKeepsEnds(s: string)
    requires s != [] && (!IsPySpace(s[0]) || !IsPySpace(s[|s| - 1]))
    ensures Strip(s) != ""
    ensures !IsPySpace(Strip(s)[0]) && !IsPySpace(Strip(s)[|Strip(s)| - 1])
  {
    var t := TrimLeft(s, IsPySpace);
    if !IsPySpace(s[0]) {
      assert t == s;
    } else {
      assert t != [] && t[|t| - 1] == s[|s| - 1];
    }
    assert TrimRight(t, IsPySpace) != [];
  }

  /** A character absent from `s` is absent from what stripping leaves. */
  lemma StripIsSlice(s: string, c: char)
    requires c !in s
    ensures c !in Strip(s)
  {
    var lead, stripped := TrimEnds(s, IsPySpace);
    var r := Strip(s);
    forall i | 0 <= i < |r| ensures r[i] != c {
      assert r[i] == s[lead + i];
    }
  }

  /** An app id and a name around one tab give that entry; tabs inside the name stay in
      the name. */
  lemma TabSeparatedEntry(appid: string, name: string)
    requires appid != "" && NoSpace(appid)
    requires name != "" && !IsPySpace(name[0]) && !IsPySpace(name[|name| - 1])
    ensures ParseTabLine(appid + "\t" + name + "\n") == Entry(appid, name)
  {
    var line := appid + "\t" + name;
    NewlineStripped(appid, name);
    FirstTabAfter(appid, name);
    TrimOfPadded(appid, 0, |appid|, IsPySpace);
    TrimOfPadded(name, 0, |name|, IsPySpace);
    assert appid[0..|appid|] == appid && name[0..|name|] == name;
    ParseAtTab(appid + "\t" + name + "\n", line, |appid|);
  }

  /** The line ending is all that stripping removes from a line with non-whitespace ends. */
  lemma NewlineStripped(appid: string, name: string)
    requires appid != "" && !IsPySpace(appid[0])
    requires name != "" && !IsPySpace(name[|name| - 1])
    ensures Strip(appid + "\t" + name + "\n") == appid + "\t" + name
  {
    var line := appid + "\t" + name;
    var raw := line + "\n";
    assert raw[0] == appid[0] && raw[|raw| - 2] == name[|name| - 1];
    TrimOfPadded(raw, 0, |raw| - 1, IsPySpace);
    assert raw[0..|raw| - 1] == line;
  }

  /** The tab after a whitespace-free app id is the first one of the line. */
  lemma FirstTabAfter(appid: string, name: string)
    requires NoSpace(appid)
    ensures var line := appid + "\t" + name;
            FirstIndexOf(line, '\t') == Some(|appid|) &&
            line[..|appid|] == appid && line[|appid| + 1..] == name
  {
    var line := appid + "\t" + name;
    var k := |appid|;
    assert line[k] == '\t';
    assert line[..k] == appid;
    assert line[k + 1..] == name;
    assert '\t' !in appid by {
      forall i | 0 <= i < |appid| ensures appid[i] != '\t' {
        assert !IsPySpace(appid[i]);
      }
    }
  }

  /** A line that strips to `line`, whose first tab is at `k`, is the entry of the
      stripped halves around it. */
  lemma ParseAtTab(raw: string, line: string, k: nat)
    requires Strip(raw) == line && line != ""
    requires FirstIndexOf(line, '\t') == Some(k)
    ensures ParseTabLine(raw) == Entry(Strip(line[..k]), Strip(line[k + 1..]))
  {
  }

  /** A tab that is only trailing whitespace is stripped away with the line ending: the
      line `730\t` has no tab left to split at and is skipped as malformed. */
  lemma TrailingTabIsMalformed(appid: string)
    requires appid != "" && NoSpace(appid)
    ensures ParseTabLine(appid + "\t\n") == Malformed(appid)
  {
    var raw := appid + "\t\n";
    assert raw[0] == appid[0] && raw[|raw| - 3] == appid[|appid| - 1];
    TrimOfPadded(raw, 0, |raw| - 2, IsPySpace);
    assert raw[0..|raw| - 2] == appid;
    assert '\t' !in appid by {
      forall i | 0 <= i < |appid| ensures appid[i] != '\t' {
        assert !IsPySpace(appid[i]);
      }
    }
  }
}
