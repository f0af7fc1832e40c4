/** Along a run: which step wrote a content row last, and what stamp it left there. */
module RowHistory {
  import opened Tables
  import opened Transactions
  import opened Invariants
  import opened Steps
  import opened Effects

  /** The clock reading a step writes into the rows it changes. */
  function StampOf(a: Step): int {
    match a
    case CreateContentStep(_, _, _, _, now, _) => now
    case UpdateContentStep(_, _, _, _, now, _) => now
    case OverwriteStep(_, _, _, now, _) => now
    case PublishStep(_, _, now, _) => now
    case UnpublishStep(_, _, now, _) => now
    case CompleteStep(_, now, _) => now
    case _ => 0
  }

  /** Step `m` of the run creates or changes the row of content `c`. */
  ghost predicate RewritesAt(r: Run, m: nat, c: string)
    requires m < |r.steps| && |r.states| == |r.steps| + 1
  {
    ContentRow(r.states[m].db, c) != ContentRow(r.states[m + 1].db, c)
  }

  ghost predicate Untouched(r: Run, i: nat, j: nat, c: string)
    requires |r.states| == |r.steps| + 1 && j < |r.states|
  {
    forall q: nat | i <= q < j :: !RewritesAt(r, q, c)
  }

  /** `m` is the last step from state `i` to state `j` that rewrites the row of `c`. */
  ghost predicate LastRewrite(r: Run, i: nat, j: nat, c: string, m: nat)
    requires |r.states| == |r.steps| + 1 && j < |r.states|
  {
    i <= m < j && RewritesAt(r, m, c) && Untouched(r, m + 1, j, c)
  }

  /** The stamp of `c` at state `j`, told from state `i` and the steps since: what the last
      rewriting step wrote, or what stood there if none did. */
  ghost predicate LastStamp(r: Run, i: nat, j: nat, c: string, t: int)
    requires |r.states| == |r.steps| + 1 && i <= j < |r.states|
  {
    || (exists m: nat :: LastRewrite(r, i, j, c, m) && StampOf(r.steps[m]) == t)
    || (Untouched(r, i, j, c) && c in r.states[i].db.contents && r.states[i].db.contents[c].updatedAt == t)
  }

  lemma {:induction false} RowKept(r: Run, i: nat, j: nat, c: string)
    requires |r.states| == |r.steps| + 1 && i <= j < |r.states| && Untouched(r, i, j, c)
    ensures ContentRow(r.states[i].db, c) == ContentRow(r.states[j].db, c)
    decreases j
  {
    if i < j {
      RowKept(r, i, j - 1, c);
      assert !RewritesAt(r, j - 1, c);
    }
  }

  /** Between two states either nothing rewrites the row, or one step does so last. */
  lemma {:induction false} FindLastRewrite(r: Run, i: nat, j: nat, c: string) returns (m: nat)
    requires |r.states| == |r.steps| + 1 && i <= j < |r.states| && !Untouched(r, i, j, c)
    ensures LastRewrite(r, i, j, c, m)
    decreases j
  {
    hide RewritesAt;
    if RewritesAt(r, j - 1, c) {
      m := j - 1;
    } else {
      m := FindLastRewrite(r, i, j - 1, c);
    }
  }

  lemma RewriteStamps(s: State, a: Step, indexed: bool, c: string)
    requires Enabled(s, a) && ContentRow(s.db, c) != ContentRow(NextDb(s, a, indexed), c)
    ensures c in NextDb(s, a, indexed).contents
    ensures NextDb(s, a, indexed).contents[c].updatedAt == StampOf(a)
  {
    hide Enabled, NextDb, Completes, HasVersion;
    ContentEffects(s, a, indexed, c);
  }

  /** The row at `j` is the row that the last rewriting step left. */
  lemma LastRewriteLeaves(r: Run, indexed: bool, i: nat, j: nat, c: string, m: nat)
    requires IsRun(r, indexed) && i <= j < |r.states| && LastRewrite(r, i, j, c, m)
    ensures c in r.states[j].db.contents && c in r.states[m + 1].db.contents
    ensures r.states[j].db.contents[c] == r.states[m + 1].db.contents[c]
    ensures r.states[j].db.contents[c].updatedAt == StampOf(r.steps[m])
  {
    hide Enabled, NextDb, NextProcesses, NextSessions;
    RunStep(r, indexed, m);
    RewriteStamps(r.states[m], r.steps[m], indexed, c);
    RowKept(r, m + 1, j, c);
  }

  lemma NoLastRewrite(r: Run, i: nat, j: nat, c: string, m: nat)
    requires |r.states| == |r.steps| + 1 && j < |r.states| && Untouched(r, i, j, c)
    ensures !LastRewrite(r, i, j, c, m)
  {
  }

  lemma LastStampIsUpdatedAt(r: Run, indexed: bool, i: nat, j: nat, c: string, t: int)
    requires IsRun(r, indexed) && i <= j < |r.states| && c in r.states[j].db.contents
    ensures LastStamp(r, i, j, c, t) <==> r.states[j].db.contents[c].updatedAt == t
  {
    hide RewritesAt, Untouched;
    if Untouched(r, i, j, c) {
      RowKept(r, i, j, c);
      forall m: nat
        ensures !LastRewrite(r, i, j, c, m)
      {
        NoLastRewrite(r, i, j, c, m);
      }
    } else {
      var m := FindLastRewrite(r, i, j, c);
      LastRewriteLeaves(r, indexed, i, j, c, m);
      forall q: nat | LastRewrite(r, i, j, c, q)
        ensures StampOf(r.steps[q]) == r.states[j].db.contents[c].updatedAt
      {
        LastRewriteLeaves(r, indexed, i, j, c, q);
      }
    }
  }
}
