/** The way a match takes through its pattern, and where on that way its captures are
    opened and closed (src/lstrlib.c:327-350, src/lstrlib.c:366-384). */
module MatchTrail {
  import opened Seqs
  import opened Patterns

  /** The configurations on a path. */
  ghost function Along(src: string, pat: string, c: Config, path: seq<nat>): (t: seq<Config>)
    requires Ok(src, pat, c) && Follow(src, pat, c, path) != Nowhere
    ensures t != [] && t[0] == c
    decreases |path|
  {
    var r := ChoicesAt(src, pat, c);
    if r.Continue? then [c] + Along(src, pat, r.next[path[0]], path[1..]) else [c]
  }

  /** d may follow c. */
  ghost predicate Leads(src: string, pat: string, c: Config, d: Config) {
    Ok(src, pat, c) && ChoicesAt(src, pat, c).Continue? && d in ChoicesAt(src, pat, c).next
  }

  ghost predicate Trail(src: string, pat: string, t: seq<Config>) {
    t != [] && forall i :: 0 <= i < |t| - 1 ==> Leads(src, pat, t[i], t[i + 1])
  }

  lemma {:induction false} AlongTrail(src: string, pat: string, c: Config, path: seq<nat>)
    requires Ok(src, pat, c) && Follow(src, pat, c, path).Done?
    ensures var t := Along(src, pat, c, path); var o := Follow(src, pat, c, path);
      Trail(src, pat, t) && t[|t| - 1].s == o.e && t[|t| - 1].caps == o.caps
    decreases |path|
  {
    hide ChoicesAt, Ok;
    var r := ChoicesAt(src, pat, c);
    if r.Continue? {
      var d := r.next[path[0]];
      NextOk(src, pat, c, d);
      AlongTrail(src, pat, d, path[1..]);
      var u := Along(src, pat, d, path[1..]);
      var t := Along(src, pat, c, path);
      assert t == [c] + u;
      forall i | 0 <= i < |t| - 1
        ensures Leads(src, pat, t[i], t[i + 1])
      {
        assert i > 0 ==> Leads(src, pat, u[i - 1], u[i]);
      }
    }
  }

  lemma NextOk(src: string, pat: string, c: Config, d: Config)
    requires Leads(src, pat, c, d)
    ensures Ok(src, pat, d)
  {
    hide ChoicesAt;
  }

  // --------------------------------------------------------------- opened and closed

  /** Capture number k is opened here. */
  predicate Opens(pat: string, c: Config, k: nat) {
    At(pat, c.p) == '(' && |c.caps| == k
  }

  /** Capture number k is closed here: it is the last one still open. */
  predicate Closes(pat: string, c: Config, k: nat) {
    At(pat, c.p) == ')' && LastOpen(c.caps) == Some(k)
  }

  /** What a step does to the captures. */
  lemma StepCaptures(src: string, pat: string, c: Config, d: Config)
    requires Leads(src, pat, c, d)
    ensures c.s <= d.s <= |src|
    ensures At(pat, c.p) == '(' ==>
              d.caps == c.caps + [Capture(c.s, if At(pat, c.p + 1) == ')' then POSITION else UNFINISHED)]
    ensures At(pat, c.p) == ')' ==> LastOpen(c.caps).Some? && d.caps == Closed(c.caps, LastOpen(c.caps).value, c.s)
    ensures At(pat, c.p) != '(' && At(pat, c.p) != ')' ==> d.caps == c.caps
  {
    hide InSet, InClass, MaxRun, Height;
  }

  lemma {:induction false} TrailGrows(src: string, pat: string, t: seq<Config>, i: nat, j: nat)
    requires Trail(src, pat, t) && i <= j < |t|
    ensures t[i].s <= t[j].s && |t[i].caps| <= |t[j].caps| && (i < j ==> t[j].s <= |src|)
    decreases j
  {
    hide *;
    if i < j {
      TrailGrows(src, pat, t, i, j - 1);
      StepAt(src, pat, t, j - 1);
      OpensOne(src, pat, t[j - 1], t[j]);
    }
  }

  lemma StepAt(src: string, pat: string, t: seq<Config>, i: nat)
    requires Trail(src, pat, t) && i < |t| - 1
    ensures Leads(src, pat, t[i], t[i + 1])
  {
  }

  /** A step opens one capture at an opening bracket, and none elsewhere. */
  lemma OpensOne(src: string, pat: string, c: Config, d: Config)
    requires Leads(src, pat, c, d)
    ensures c.s <= d.s <= |src|
    ensures At(pat, c.p) != '(' ==> |d.caps| == |c.caps|
    ensures At(pat, c.p) == '(' ==>
              && |d.caps| == |c.caps| + 1
              && d.caps[|c.caps|] == Capture(c.s, if At(pat, c.p + 1) == ')' then POSITION else UNFINISHED)
  {
    StepCaptures(src, pat, c, d);
    hide Leads;
  }

  /** Where capture number k is opened. */
  lemma {:induction false} FindOpen(src: string, pat: string, t: seq<Config>, k: nat, n: nat) returns (i: nat)
    requires Trail(src, pat, t) && n < |t| && |t[0].caps| <= k < |t[n].caps|
    ensures i < n && Opens(pat, t[i], k) && |t[i + 1].caps| == k + 1
    ensures t[i + 1].caps[k] == Capture(t[i].s, if At(pat, t[i].p + 1) == ')' then POSITION else UNFINISHED)
    decreases n
  {
    hide Trail, Leads, At, ChoicesAt;
    StepAt(src, pat, t, n - 1);
    OpensOne(src, pat, t[n - 1], t[n]);
    if k < |t[n - 1].caps| {
      i := FindOpen(src, pat, t, k, n - 1);
    } else {
      i := n - 1;
    }
  }

  /** It is opened once. */
  lemma OpenOnce(src: string, pat: string, t: seq<Config>, i: nat, i': nat, k: nat)
    requires Trail(src, pat, t) && i < |t| - 1 && i' < |t| - 1 && Opens(pat, t[i], k) && Opens(pat, t[i'], k)
    ensures i == i'
  {
    var a, b := if i < i' then i else i', if i < i' then i' else i;
    if a < b {
      StepAt(src, pat, t, a);
      StepCaptures(src, pat, t[a], t[a + 1]);
      TrailGrows(src, pat, t, a + 1, b);
    }
  }

  /** A capture that is no longer open stays as it is. */
  lemma {:induction false} Stays(src: string, pat: string, t: seq<Config>, i: nat, j: nat, k: nat)
    requires Trail(src, pat, t) && i <= j < |t| && k < |t[i].caps| && t[i].caps[k].len != UNFINISHED
    ensures k < |t[j].caps| && t[j].caps[k] == t[i].caps[k]
    decreases j
  {
    hide *;
    if i < j {
      Stays(src, pat, t, i, j - 1, k);
      StepAt(src, pat, t, j - 1);
      StaysOnce(src, pat, t[j - 1], t[j], k);
    }
  }

  lemma StaysOnce(src: string, pat: string, c: Config, d: Config, k: nat)
    requires Leads(src, pat, c, d) && k < |c.caps| && c.caps[k].len != UNFINISHED
    ensures k < |d.caps| && d.caps[k] == c.caps[k]
  {
    StepCaptures(src, pat, c, d);
    hide Leads;
  }

  /** Where a capture is closed that is open at i and not at n. */
  lemma {:induction false} FindClose(src: string, pat: string, t: seq<Config>, i: nat, n: nat, k: nat) returns (j: nat)
    requires Trail(src, pat, t) && i <= n < |t| && k < |t[i].caps| && t[i].caps[k].len == UNFINISHED
    requires k < |t[n].caps| && t[n].caps[k].len != UNFINISHED
    ensures i <= j < n && Closes(pat, t[j], k) && t[n].caps[k] == Capture(t[i].caps[k].init, t[j].s - t[i].caps[k].init)
    decreases n - i
  {
    StepAt(src, pat, t, i);
    StepCaptures(src, pat, t[i], t[i + 1]);
    if Closes(pat, t[i], k) {
      j := i;
      LengthKnown(src, pat, t, i, k);
      Stays(src, pat, t, i + 1, n, k);
    } else {
      j := FindClose(src, pat, t, i + 1, n, k);
    }
  }

  /** A closed capture has a length. */
  lemma LengthKnown(src: string, pat: string, t: seq<Config>, i: nat, k: nat)
    requires Trail(src, pat, t) && i < |t| - 1 && Closes(pat, t[i], k)
    ensures k < |t[i + 1].caps| && t[i + 1].caps[k].len != UNFINISHED
  {
    StepAt(src, pat, t, i);
    StepCaptures(src, pat, t[i], t[i + 1]);
    assert CaptureOk(t[i].caps[k], t[i].s);
  }
}
