// The state files as texts: lines joined by newlines.
module StateTexts {
  import opened Common
  import opened Picking
  import opened Text
  import opened DecisionBody
  import opened BodyTexts
  import opened StateUpdate

  // ---- the state files ---------------------------------------------------------------------

  lemma {:induction false} Glued(h: string, t: string, f: string)
    ensures (h + "\n" + "") + "\n" + t + "\n" + ("" + "\n" + (f + "\n" + "")) == h + "\n\n" + t + "\n\n" + f + "\n"
  {
  }

  lemma {:induction false} ThreeParts(h: string, delta: Lines, f: string)
    requires delta != []
    ensures Join("\n", [h, ""] + delta + ["", f, ""]) == h + "\n\n" + Join("\n", delta) + "\n\n" + f + "\n"
  {
    var head, tail := [h, ""], ["", f, ""];
    assert head[1..] == [""] && tail[1..] == [f, ""] && tail[1..][1..] == [""];
    assert Join("\n", head) == h + "\n" + "" && Join("\n", tail) == "" + "\n" + (f + "\n" + "");
    hide Join;
    JoinLines(head, delta);
    JoinLines(head + delta, tail);
    Glued(h, Join("\n", delta), f);
  }

  // The text of a new current-state file: the header, the delta and the footer with the time.
  lemma {:induction false} CurrentText(delta: Lines, timestamp: string)
    requires delta != []
    ensures Join("\n", CurrentFile(delta, timestamp))
      == "# Current State" + "\n\n" + Join("\n", delta) + "\n\n" + ("*Last updated: " + timestamp + "*") + "\n"
  {
    hide Join;
    ThreeParts("# Current State", delta, "*Last updated: " + timestamp + "*");
  }

  ghost function Plain(content: Lines): nat -> bool {
    (i: nat) => i < |content| && !IsMarker(content[i])
  }

  lemma {:induction false} UnmarkedStep(content: Lines)
    requires content != []
    ensures var n := |content| - 1; var front := Unmarked(content[..n]);
      Unmarked(content) == if IsMarker(content[n]) then front else front + [content[n]]
  {
    hide IsMarker;
    assert Unmarked(content[..|content| - 1]) + [] == Unmarked(content[..|content| - 1]);
  }

  lemma {:induction false} UnmarkedPicks(content: Lines)
    ensures Picks(content, Plain(content), Unmarked(content))
  {
    if content == [] {
      PicksNone<string>(Plain(content));
    } else {
      var n: nat := |content| - 1;
      var front := content[..n];
      UnmarkedPicks(front);
      UnmarkedStep(content);
      assert content == front + [content[n]];
      hide Picks, IsMarker, Unmarked;
      forall i: nat | i < n ensures Plain(front)(i) <==> Plain(content)(i) { assert front[i] == content[i]; }
      PicksSame(front, Plain(front), Plain(content), Unmarked(front));
      PicksSnoc(front, content[n], Plain(content), Unmarked(front));
    }
  }

  // The body read from a current-state file: the lines that are neither header nor footer, in
  // order, stripped as one text.
  lemma {:induction false} BodyText(content: Lines) returns (kept: Lines)
    ensures Picks(content, Plain(content), kept)
    ensures Join("\n", StateBody(content)) == Strip(Join("\n", kept))
  {
    kept := Unmarked(content);
    UnmarkedPicks(content);
    StripText(kept);
  }

  lemma {:induction false} MarkerIs(a: string, t: string, b: string)
    requires IsBlank(a) && IsBlank(b) && t != [] && !IsSpace(t[0]) && !IsSpace(t[|t| - 1])
    ensures IsMarker(a + t + b) <==>
      || (|t| >= 15 && t[..15] == "# Current State")
      || (|t| >= 15 && t[..15] == "*Last updated: " && t[|t| - 1] == '*')
  {
    StripExactly(a + t + b, a, t, b);
    hide Strip, IsSpace;
    assert t[|t| - 1..] == [t[|t| - 1]];
  }

  // Which lines are taken for the header or the footer, blanks around them aside.
  lemma {:induction false} MarkerExamples(a: string, b: string)
    requires IsBlank(a) && IsBlank(b)
    ensures IsMarker(a + "# Current State of play" + b)
    ensures IsMarker(a + "*Last updated: *" + b)
    ensures !IsMarker(a + "*Last updated: soon" + b)
    ensures !IsMarker(a + "Last updated: soon*" + b)
    ensures !IsMarker(a + "## Current State" + b)
  {
    MarkerIs(a, "# Current State of play", b);
    MarkerIs(a, "*Last updated: *", b);
    MarkerIs(a, "*Last updated: soon", b);
    MarkerIs(a, "Last updated: soon*", b);
    MarkerIs(a, "## Current State", b);
    hide IsMarker;
    assert "# Current State of play"[..15] == "# Current State" && "*Last updated: *"[..15] == "*Last updated: ";
    assert "Last updated: soon*"[..15][0] == 'L' && "## Current State"[..15][1] == '#' && "*Last updated: soon"[..15][0] == '*';
  }

  lemma {:induction false} BlocksGrow(first: Lines, deltas: seq<Delta>, k: nat, n: nat) returns (rest: string)
    requires k <= n <= |deltas|
    ensures Blocks(first, deltas, n) == Blocks(first, deltas, k) + rest
  {
    hide Archived, Replaced;
    if k == n {
      rest := "";
    } else {
      var r := BlocksGrow(first, deltas, k, n - 1);
      var more := Archived(Replaced(first, deltas, n - 1), deltas[n - 1].timestamp);
      rest := r + more;
      assert Blocks(first, deltas, n) == Blocks(first, deltas, n - 1) + more;
      assert Blocks(first, deltas, k) + r + more == Blocks(first, deltas, k) + (r + more);
    }
  }

  lemma {:induction false} BlocksNext(first: Lines, deltas: seq<Delta>, k: nat)
    requires k < |deltas|
    ensures Blocks(first, deltas, k + 1) == Blocks(first, deltas, k) + Archived(Replaced(first, deltas, k), deltas[k].timestamp)
  {
    hide Archived, Replaced;
  }

  lemma {:induction false} ArchivedIs(body: Lines, timestamp: string)
    ensures body != [""] ==> Archived(body, timestamp) == "## " + timestamp + "\n\n" + Join("\n", body) + "\n\n---\n"
    ensures body == [""] ==> Archived(body, timestamp) == ""
  {
    hide Join;
  }

  // The archive of the replaced body `k`: under the time of the update that replaced it, in
  // the place after those of the earlier ones; nothing for a blank body.
  lemma {:induction false} ArchivedAt(first: Lines, deltas: seq<Delta>, n: nat, k: nat) returns (rest: string)
    requires k < n <= |deltas|
    ensures Replaced(first, deltas, k) != [""] ==>
      Blocks(first, deltas, n) == Blocks(first, deltas, k)
        + ("## " + deltas[k].timestamp + "\n\n" + Join("\n", Replaced(first, deltas, k)) + "\n\n---\n") + rest
    ensures Replaced(first, deltas, k) == [""] ==> Blocks(first, deltas, n) == Blocks(first, deltas, k) + rest
  {
    hide *;
    rest := BlocksGrow(first, deltas, k + 1, n);
    BlocksNext(first, deltas, k);
    ArchivedIs(Replaced(first, deltas, k), deltas[k].timestamp);
    assert Blocks(first, deltas, k) + "" == Blocks(first, deltas, k);
  }

  // The plan leaves both files alone.
  predicate Untouched(files: Files, plan: Plan) {
    plan.current == None && plan.history == None && Executed(files, plan) == files
  }

  // A stripped text is blank iff it is empty.
  lemma {:induction false} BlankBody(t: Lines)
    requires Stripped(t)
    ensures IsBlank(Join("\n", t)) <==> t == [""]
  {
    if t != [""] {
      if |t| == 1 {
      } else {
        JoinLines([t[0]], t[1..]);
        assert t == [t[0]] + t[1..];
        BlankJoin(t[0] + "\n", Join("\n", t[1..]));
        BlankJoin(t[0], "\n");
      }
    }
  }

  // What a plan does: an over-long delta is rejected, a stale revision is a conflict, and
  // without any state file there is nothing to do; otherwise the current file is rewritten,
  // the legacy one kept, and the history grows iff the replaced body is not blank. Only a
  // delta over a current file is checked for overlap.
  lemma {:induction false} PlanExactly(env: Env, files: Files, delta: Lines, timestamp: string, expected: Option<string>)
    ensures var plan := PlanStateUpdate(env, files, delta, timestamp, expected); var after := Executed(files, plan);
      var stale := expected.Some? && expected != Some(env.revision(files.current));
      if |Join("\n", delta)| > 5000 then plan.status == Rejected && Untouched(files, plan)
      else if stale then plan.status == Conflict && Untouched(files, plan)
      else if files.current == None && files.legacy == None then plan.status == Noop && Untouched(files, plan)
      else
        var content := files.current.GetOr(files.legacy.GetOr([]));
        && plan.status == Ok(if files.current.Some? then env.warn(delta, content) else None)
        && after.current == Some(CurrentFile(delta, timestamp)) && after.legacy == files.legacy
        && (IsBlank(Join("\n", StateBody(content))) ==> after.history == files.history)
        && (!IsBlank(Join("\n", StateBody(content))) ==>
              after.history == Some(files.history.GetOr("")
                + ("## " + timestamp + "\n\n" + Join("\n", StateBody(content)) + "\n\n---\n")))
  {
    hide CurrentFile, StripLines, Unmarked;
    if files.current.Some? || files.legacy.Some? {
      var content := files.current.GetOr(files.legacy.GetOr([]));
      StripLinesStripped(Unmarked(content));
      hide StateBody;
      BlankBody(StateBody(content));
    }
  }
}
