// The split state files: replacing the current state and archiving the body it had, as a
// plan of effects and as the operation that reads and writes the store.
module StateUpdate {
  import opened Common
  import opened Identifiers
  import opened Text
  import opened DecisionBody

  // ---- The two files --------------------------------------------------------------------

  function StateHeader(): string {
    "# Current State"
  }

  function UpdatedPrefix(): string {
    "*Last updated: "
  }

  // A line the writer's own header or footer would match.
  predicate IsMarker(line: string) {
    var s := Strip(line);
    StartsWith(s, StateHeader()) || (StartsWith(s, UpdatedPrefix()) && EndsWith(s, "*"))
  }

  function Unmarked(lines: Lines): Lines {
    if lines == [] then []
    else
      var n := |lines| - 1;
      Unmarked(lines[..n]) + if IsMarker(lines[n]) then [] else [lines[n]]
  }

  // The body of a current-state file, header and footer peeled off.
  function StateBody(content: Lines): Lines {
    StripLines(Unmarked(content))
  }

  method StripHeaderFooter(content: Lines) returns (body: Lines)
    ensures body == StateBody(content)
  {
    var stripped := [];
    var i := 0;
    while i < |content|
      invariant i <= |content| && stripped == Unmarked(content[..i])
    {
      assert content[..i + 1][..i] == content[..i];
      if !IsMarker(content[i]) {
        stripped := stripped + [content[i]];
      }
      i := i + 1;
    }
    assert content[..i] == content;
    body := StripLines(stripped);
  }

  function Footer(timestamp: string): string {
    UpdatedPrefix() + timestamp + "*"
  }

  function CurrentFile(delta: Lines, timestamp: string): Lines {
    [StateHeader(), ""] + delta + ["", Footer(timestamp), ""]
  }

  function Joined(lines: Lines): string {
    Join("\n", lines)
  }

  // The block that archives a body, or nothing when there is no body.
  function Archived(body: Lines, timestamp: string): string {
    if body == [""] then "" else "## " + timestamp + "\n\n" + Joined(body) + "\n\n---\n"
  }

  // ---- The plan -----------------------------------------------------------------------------

  datatype Files = Files(current: Option<Lines>, history: Option<string>, legacy: Option<Lines>)

  // The state a store starts from: its current file, or the legacy one.
  function Initial(files: Files): Option<Lines> {
    if files.current.Some? then files.current else files.legacy
  }

  // An overlap check and a revision digest, neither looked into.
  datatype Env = Env(warn: (Lines, Lines) -> Option<string>, revision: Option<Lines> -> string)

  const MAX_DELTA_LENGTH: nat := 5_000

  datatype Status = Ok(warning: Option<string>) | Noop | Conflict | Rejected

  // Replacements for the two files; None leaves a file alone.
  datatype Plan = Plan(status: Status, current: Option<Lines>, history: Option<string>)

  function ArchiveEffect(history: Option<string>, body: Lines, timestamp: string): Option<string> {
    if body == [""] then None else Some(history.GetOr("") + Archived(body, timestamp))
  }

  predicate TooLong(delta: Lines) {
    |Joined(delta)| > MAX_DELTA_LENGTH
  }

  // What a delta of admissible length does.
  function Replacement(env: Env, files: Files, delta: Lines, timestamp: string, expected: Option<string>): Plan {
    if expected.Some? && expected.value != env.revision(files.current) then Plan(Conflict, None, None)
    else if files.current.None? && files.legacy.None? then Plan(Noop, None, None)
    else
      var content := if files.current.None? then files.legacy.value else files.current.value;
      var warning := if files.current.None? then None else env.warn(delta, content);
      Plan(Ok(warning), Some(CurrentFile(delta, timestamp)), ArchiveEffect(files.history, StateBody(content), timestamp))
  }

  function PlanStateUpdate(env: Env, files: Files, delta: Lines, timestamp: string, expected: Option<string>): Plan {
    if TooLong(delta) then Plan(Rejected, None, None) else Replacement(env, files, delta, timestamp, expected)
  }

  // The files after the plan's replacements are written.
  function Executed(files: Files, plan: Plan): Files {
    files.(current := if plan.current.Some? then plan.current else files.current,
           history := if plan.history.Some? then plan.history else files.history)
  }

  // ---- The local operation ---------------------------------------------------------------------

  class Store {
    var current: Option<Lines>
    var history: Option<string>
    var legacy: Option<Lines>

    constructor (files: Files)
      ensures Contents() == files
    {
      current, history, legacy := files.current, files.history, files.legacy;
    }

    function Contents(): Files
      reads this
    {
      Files(current, history, legacy)
    }

    // Reads and writes file by file. It ends with the plan's files and status exactly when
    // the delta is not too long: the plan refuses a longer one, the operation writes it.
    method UpdateState(env: Env, delta: Lines, timestamp: string) returns (status: Status)
      modifies this
      ensures var done := Replacement(env, old(Contents()), delta, timestamp, None);
        Contents() == Executed(old(Contents()), done) && status == done.status
      ensures var plan := PlanStateUpdate(env, old(Contents()), delta, timestamp, None);
        (Contents() == Executed(old(Contents()), plan) && status == plan.status) <==> !TooLong(delta)
    {
      var content := current;
      var usingLegacy := false;
      if content.None? {
        var legacyContent := legacy;
        if legacyContent.None? {
          return Noop;
        }
        usingLegacy := true;
        current := legacyContent;
        content := legacyContent;
      }
      var warning := if usingLegacy then None else env.warn(delta, content.value);
      var body := StripHeaderFooter(content.value);
      current := Some(CurrentFile(delta, timestamp));
      if body != [""] {
        var existing := history.GetOr("");
        history := Some(existing + Archived(body, timestamp));
      }
      status := Ok(warning);
    }
  }

  // ---- A delta over the limit --------------------------------------------------------------------

  function LongDelta(): Lines {
    [seq(MAX_DELTA_LENGTH + 1, _ => 'x')]
  }

  // The plan refuses the delta and touches nothing; the operation, which leaves the limit to
  // its callers, writes it.
  lemma {:induction false} LongDeltaExample(env: Env, files: Files, timestamp: string)
    requires Initial(files).Some?
    ensures var plan := PlanStateUpdate(env, files, LongDelta(), timestamp, None);
      plan.status == Rejected && Executed(files, plan) == files
    ensures Executed(files, Replacement(env, files, LongDelta(), timestamp, None)).current
         == Some(CurrentFile(LongDelta(), timestamp))
  {
    hide CurrentFile, StateBody, Archived;
    assert Joined(LongDelta()) == LongDelta()[0];
  }

  // ---- What is archived ---------------------------------------------------------------------------

  predicate NoMarkers(lines: Lines) {
    forall k :: 0 <= k < |lines| ==> !IsMarker(lines[k])
  }

  lemma {:induction false} UnmarkedJoin(a: Lines, b: Lines)
    ensures Unmarked(a + b) == Unmarked(a) + Unmarked(b)
  {
    hide IsMarker;
    if b == [] {
      assert a + b == a;
    } else {
      var n := |b| - 1;
      UnmarkedJoin(a, b[..n]);
      assert (a + b)[..|a + b| - 1] == a + b[..n];
    }
  }

  lemma {:induction false} NoneMarked()
    ensures NoMarkers([]) && Unmarked([]) == []
  {
  }

  lemma {:induction false} NoMarkersSnoc(lines: Lines)
    requires lines != []
    ensures NoMarkers(lines) <==> NoMarkers(lines[..|lines| - 1]) && !IsMarker(lines[|lines| - 1])
  {
    hide IsMarker;
    assert lines == lines[..|lines| - 1] + [lines[|lines| - 1]];
  }

  lemma {:induction false} StripStartsSolid(line: string)
    requires Strip(line) != []
    ensures !IsSpace(Strip(line)[0])
  {
    RStripPrefix(LStrip(line));
    assert Strip(line)[0] == LStrip(line)[0];
  }

  lemma {:induction false} MarkerNotBlank(line: string)
    ensures IsMarker(line) ==> !IsBlank(line)
  {
    StripClean(line);
    if IsMarker(line) {
      var s := Strip(line);
      assert |s| > 0;
      assert !IsSpace(s[0]) by { StripStartsSolid(line); }
    }
  }

  lemma {:induction false} LastCount(lines: Lines)
    requires lines != []
    ensures var before, last := lines[..|lines| - 1], lines[|lines| - 1];
      NonBlank(lines) - NonBlank(before) == NonBlank(Unmarked(lines)) - NonBlank(Unmarked(before)) + if IsMarker(last) then 1 else 0
  {
    var before, last := lines[..|lines| - 1], lines[|lines| - 1];
    hide IsMarker, IsBlank, NonBlank;
    MarkerNotBlank(last);
    OneLine(last);
    assert lines == before + [last];
    NonBlankJoin(before, [last]);
    NonBlankJoin(Unmarked(before), [last]);
    assert Unmarked(before) + [] == Unmarked(before);
  }

  // A marker is not blank, so dropping one loses a line that counts.
  lemma {:induction false} UnmarkedCount(lines: Lines)
    ensures NonBlank(Unmarked(lines)) <= NonBlank(lines)
    ensures NonBlank(Unmarked(lines)) == NonBlank(lines) <==> NoMarkers(lines)
    ensures NoMarkers(lines) ==> Unmarked(lines) == lines
  {
    hide IsMarker, IsBlank, NonBlank, NoMarkers;
    if lines == [] {
      NoneMarked();
    } else {
      var n := |lines| - 1;
      UnmarkedCount(lines[..n]);
      LastCount(lines);
      NoMarkersSnoc(lines);
      assert lines == lines[..n] + [lines[n]];
    }
  }

  lemma {:induction false} HeaderIsMarker()
    ensures IsMarker(StateHeader())
  {
    var h := StateHeader();
    assert h[0] == '#' && h[|h| - 1] == 'e';
    assert Strip(h) == h && h[..|h|] == h;
  }

  lemma {:induction false} FooterIsMarker(timestamp: string)
    ensures IsMarker(Footer(timestamp))
  {
    var f := Footer(timestamp);
    assert f[0] == '*' && f[|f| - 1] == '*';
    assert LStrip(f) == f && RStrip(f) == f;
    assert f[..|UpdatedPrefix()|] == UpdatedPrefix();
    assert f[|f| - 1..] == "*";
  }

  // What the writer adds around a body.
  lemma {:induction false} MarkersWritten(timestamp: string)
    ensures IsMarker(StateHeader()) && IsMarker(Footer(timestamp)) && !IsMarker("")
  {
    HeaderIsMarker();
    FooterIsMarker(timestamp);
    assert Strip("") == "";
  }

  lemma {:induction false} UnmarkedOne(l: string)
    ensures Unmarked([l]) == if IsMarker(l) then [] else [l]
  {
    hide IsMarker;
    assert [l][..0] == [];
  }

  lemma {:induction false} UnmarkedCurrent(delta: Lines, timestamp: string)
    ensures Unmarked(CurrentFile(delta, timestamp)) == [""] + Unmarked(delta) + ["", ""]
  {
    var h, f := StateHeader(), Footer(timestamp);
    MarkersWritten(timestamp);
    hide StateHeader, Footer, IsMarker, Unmarked;
    UnmarkedOne(h);
    UnmarkedOne(f);
    UnmarkedOne("");
    assert CurrentFile(delta, timestamp) == ([h] + [""]) + delta + ([""] + [f] + [""]);
    UnmarkedJoin([h] + [""], delta);
    UnmarkedJoin([h], [""]);
    UnmarkedJoin([h] + [""] + delta, [""] + [f] + [""]);
    UnmarkedJoin([""] + [f], [""]);
    UnmarkedJoin([""], [f]);
    assert [] + [""] == [""] && [""] + [] + [""] == ["", ""];
  }

  // A blank line at the end is dropped with the others, or stays at the end.
  lemma {:induction false} HeadSnoc(lines: Lines)
    ensures DropHead(lines + [""]) == if DropHead(lines) == [] then [] else DropHead(lines) + [""]
  {
    EmptyNoHash();
    hide IsBlank;
    if lines == [] {
      assert (lines + [""])[1..] == [];
    } else {
      assert (lines + [""])[0] == lines[0] && (lines + [""])[1..] == lines[1..] + [""];
      if IsBlank(lines[0]) { HeadSnoc(lines[1..]); }
    }
  }

  lemma {:induction false} BlankTailDropped(lines: Lines)
    ensures StripLines(lines + [""]) == StripLines(lines)
  {
    EmptyNoHash();
    hide IsBlank;
    HeadSnoc(lines);
    var t := DropHead(lines);
    if t == [] {
      assert DropHead(lines + [""]) == [] || DropHead(lines + [""]) == [""];
    } else {
      assert (t + [""])[..|t|] == t;
      assert DropTail(t + [""]) == DropTail(t);
    }
    hide DropHead;
  }

  // Archiving what was written gives back the delta, trimmed, exactly when no line of it
  // looks like the writer's header or footer.
  lemma {:induction false} WrittenBody(delta: Lines, timestamp: string)
    ensures StateBody(CurrentFile(delta, timestamp)) == StripLines(delta) <==> NoMarkers(delta)
  {
    var u := Unmarked(delta);
    UnmarkedCurrent(delta, timestamp);
    UnmarkedCount(delta);
    hide Unmarked, CurrentFile, StripLines, NoMarkers, NonBlank;
    assert [""] + u + ["", ""] == [""] + u + [""] + [""];
    BlankTailDropped([""] + u + [""]);
    BlankTailDropped([""] + u);
    StripsBlankFront(u);
    StripCount(u);
    StripCount(delta);
  }

  // ---- Runs of deltas -------------------------------------------------------------------------------

  datatype Delta = Delta(text: Lines, timestamp: string)

  // The files after one local update; a store without state is left alone.
  function AfterOne(env: Env, files: Files, d: Delta): Files {
    Executed(files, Replacement(env, files, d.text, d.timestamp, None))
  }

  function AfterAll(env: Env, files: Files, deltas: seq<Delta>): Files {
    if deltas == [] then files
    else AfterOne(env, AfterAll(env, files, deltas[..|deltas| - 1]), deltas[|deltas| - 1])
  }

  // The body each delta replaces: the one before it, the file's own before the first.
  function Replaced(first: Lines, deltas: seq<Delta>, k: nat): Lines
    requires k < |deltas|
  {
    if k == 0 then first else StripLines(deltas[k - 1].text)
  }

  // The archive blocks of the first `n` updates, in order.
  function Blocks(first: Lines, deltas: seq<Delta>, n: nat): string
    requires n <= |deltas|
  {
    if n == 0 then "" else Blocks(first, deltas, n - 1) + Archived(Replaced(first, deltas, n - 1), deltas[n - 1].timestamp)
  }

  lemma {:induction false} BlocksPrefix(first: Lines, deltas: seq<Delta>, m: nat, n: nat)
    requires n <= m <= |deltas|
    ensures Blocks(first, deltas[..m], n) == Blocks(first, deltas, n)
  {
    hide Archived, StripLines;
    if n > 0 {
      BlocksPrefix(first, deltas, m, n - 1);
      assert Replaced(first, deltas[..m], n - 1) == Replaced(first, deltas, n - 1);
      assert deltas[..m][n - 1] == deltas[n - 1];
      hide Replaced;
    }
  }

  lemma {:induction false} RunStarts(env: Env, files: Files, d: Delta)
    requires Initial(files).Some?
    ensures var next := AfterOne(env, files, d);
      && next.current == Some(CurrentFile(d.text, d.timestamp)) && next.legacy == files.legacy
      && next.history.GetOr("") == files.history.GetOr("") + Archived(StateBody(Initial(files).value), d.timestamp)
  {
    hide CurrentFile, StateBody;
    var earlier := files.history.GetOr("");
    assert earlier + "" == earlier;
  }

  // Over any run of deltas that hold no header- or footer-shaped line, the history only
  // grows at its end, and holds every replaced body that is not blank, trimmed, once and
  // in order; the current file is the last delta's.
  lemma {:induction false} HistoryOfRun(env: Env, files: Files, deltas: seq<Delta>)
    requires Initial(files).Some? && deltas != []
    requires forall k :: 0 <= k < |deltas| ==> NoMarkers(deltas[k].text)
    ensures var last := deltas[|deltas| - 1];
      var final := AfterAll(env, files, deltas);
      && final.current == Some(CurrentFile(last.text, last.timestamp))
      && final.legacy == files.legacy
      && final.history.GetOr("") == files.history.GetOr("") + Blocks(StateBody(Initial(files).value), deltas, |deltas|)
  {
    hide CurrentFile, StateBody, Archived, NoMarkers, StripLines;
    var n, first := |deltas| - 1, StateBody(Initial(files).value);
    var last := deltas[n];
    if n == 0 {
      RunStarts(env, files, last);
      assert deltas[..0] == [];
      assert Blocks(first, deltas, 1) == "" + Archived(first, last.timestamp);
      assert "" + Archived(first, last.timestamp) == Archived(first, last.timestamp);
    } else {
      var before := AfterAll(env, files, deltas[..n]);
      HistoryOfRun(env, files, deltas[..n]);
      BlocksPrefix(first, deltas, n, n);
      WrittenBody(deltas[n - 1].text, deltas[n - 1].timestamp);
      RunStarts(env, before, last);
      var earlier, added := files.history.GetOr(""), Blocks(first, deltas, n);
      var entry := Archived(Replaced(first, deltas, n), last.timestamp);
      assert (earlier + added) + entry == earlier + (added + entry);
      hide Blocks, Replacement;
    }
  }
}
