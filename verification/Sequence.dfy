/** Sequence allocation: each call reads the stored next value, writes it moved on by the
    count, and tries again when another commit got in between. */
module Sequence {
  import opened Strings

  /** A range handed out: the first value and how many. */
  datatype Range = Range(name: string, start: int, count: int) {
    predicate Covers(v: int) {
      start <= v < start + count
    }
  }

  /** One attempt of the loop: what it read, and whether another call has committed the same
      sequence since. */
  datatype Attempt = Attempt(name: string, count: int, start: int, overtaken: bool)

  /** The stored next values, the attempts under way and the ranges granted so far. */
  datatype State = State(next: map<string, int>, attempts: map<nat, Attempt>, granted: seq<Range>)

  const INITIAL := State(map[], map[], [])

  datatype Step = Read(id: nat, name: string, count: int) | TryCommit(id: nat)

  /** A fresh sequence starts at one. */
  function NextOf(st: State, name: string): int {
    if name in st.next then st.next[name] else 1
  }

  /** The first committer wins: a commit that was overtaken changes nothing, and its caller
      reads again. */
  function Next(st: State, step: Step): State {
    match step
    case Read(id, name, count) => st.(attempts := st.attempts[id := Attempt(name, count, NextOf(st, name), false)])
    case TryCommit(id) =>
      if id !in st.attempts then st
      else if st.attempts[id].overtaken then st.(attempts := st.attempts - {id})
      else
        var a := st.attempts[id];
        State(
          st.next[a.name := a.start + a.count],
          map i | i in st.attempts && i != id ::
            st.attempts[i].(overtaken := st.attempts[i].overtaken || st.attempts[i].name == a.name),
          st.granted + [Range(a.name, a.start, a.count)])
  }

  function Run(st: State, steps: seq<Step>): State
    decreases |steps|
  {
    if steps == [] then st else Run(Next(st, steps[0]), steps[1..])
  }

  /** Counts are positive and the next value stays a signed 64-bit integer. */
  predicate StepInScope(st: State, step: Step) {
    step.Read? ==> step.count > 0 && NextOf(st, step.name) + step.count <= I64_MAX
  }

  predicate RunInScope(st: State, steps: seq<Step>)
    decreases |steps|
  {
    steps != [] ==> StepInScope(st, steps[0]) && RunInScope(Next(st, steps[0]), steps[1..])
  }

  // ── the invariant ────────────────────────────────────────────────────────

  /** Where the ranges granted for a name end. */
  function EndOf(granted: seq<Range>, name: string): int {
    if granted == [] then 1
    else
      var last := granted[|granted| - 1];
      if last.name == name then last.start + last.count else EndOf(granted[..|granted| - 1], name)
  }

  /** Each range starts where the ones before it end. */
  predicate Consecutive(granted: seq<Range>) {
    forall i :: 0 <= i < |granted| ==>
      granted[i].count > 0 && granted[i].start == EndOf(granted[..i], granted[i].name)
  }

  ghost predicate Inv(st: State) {
    && Consecutive(st.granted)
    && (forall name :: NextOf(st, name) == EndOf(st.granted, name))
    && (forall id :: id in st.attempts && !st.attempts[id].overtaken ==>
          st.attempts[id].start == NextOf(st, st.attempts[id].name))
    && (forall id :: id in st.attempts ==> st.attempts[id].count > 0)
    && (forall name :: name in st.next ==> st.next[name] <= I64_MAX)
    && (forall id :: id in st.attempts && !st.attempts[id].overtaken ==>
          st.attempts[id].start + st.attempts[id].count <= I64_MAX)
  }

  lemma NextKeepsInv(st: State, step: Step)
    requires Inv(st) && StepInScope(st, step)
    ensures Inv(Next(st, step))
  {
    if step.TryCommit? && step.id in st.attempts && !st.attempts[step.id].overtaken {
      var a, after := st.attempts[step.id], Next(st, step);
      var n := |st.granted|;
      assert after.granted[..n] == st.granted;
      forall i | 0 <= i < n ensures after.granted[..i] == st.granted[..i] {
      }
      forall name ensures NextOf(after, name) == EndOf(after.granted, name) {
        assert NextOf(st, name) == EndOf(st.granted, name);
      }
    }
  }

  lemma {:induction false} RunKeepsInv(st: State, steps: seq<Step>)
    requires Inv(st) && RunInScope(st, steps)
    ensures Inv(Run(st, steps))
    decreases |steps|
  {
    if steps != [] {
      NextKeepsInv(st, steps[0]);
      RunKeepsInv(Next(st, steps[0]), steps[1..]);
    }
  }

  // ── main results ─────────────────────────────────────────────────────────

  /** A later range of the same name starts no lower than an earlier one ends. */
  lemma {:induction false} EndGrows(granted: seq<Range>, i: nat)
    requires Consecutive(granted) && i < |granted|
    ensures granted[i].start + granted[i].count <= EndOf(granted, granted[i].name)
    decreases |granted|
  {
    var n := |granted| - 1;
    if i < n {
      var front := granted[..n];
      FrontConsecutive(granted, n);
      EndGrows(front, i);
    }
  }

  lemma FrontConsecutive(granted: seq<Range>, n: nat)
    requires Consecutive(granted) && n <= |granted|
    ensures Consecutive(granted[..n])
  {
    forall i | 0 <= i < n ensures granted[..n][..i] == granted[..i] {
    }
  }

  /** Some granted range of the name covers the value. */
  ghost predicate Granted(granted: seq<Range>, name: string, v: int) {
    exists r :: r in granted && r.name == name && r.Covers(v)
  }

  lemma {:induction false} CoversExactly(granted: seq<Range>, name: string, v: int)
    requires Consecutive(granted)
    ensures Granted(granted, name, v) <==> 1 <= v < EndOf(granted, name)
    ensures EndOf(granted, name) >= 1
    decreases |granted|
  {
    if granted != [] {
      var n := |granted| - 1;
      var front, last := granted[..n], granted[n];
      FrontConsecutive(granted, n);
      CoversExactly(front, name, v);
      assert granted == front + [last];
      assert last.start == EndOf(granted[..n], last.name);
      assert Granted(granted, name, v) <==> Granted(front, name, v) || (last.name == name && last.Covers(v)) by {
        assert forall r :: r in granted <==> r in front || r == last;
      }
      CoversExactly(front, last.name, v);
    }
  }

  /** Over any interleaving, the ranges granted for a name do not overlap, and together they
      are exactly the values from one up to the stored next value. */
  lemma RangesTile(steps: seq<Step>, name: string)
    requires RunInScope(INITIAL, steps)
    ensures var st := Run(INITIAL, steps);
            && (forall i, j :: 0 <= i < j < |st.granted| && st.granted[i].name == st.granted[j].name ==>
                  st.granted[i].start + st.granted[i].count <= st.granted[j].start)
            && (forall v :: Granted(st.granted, name, v) <==> 1 <= v < NextOf(st, name))
  {
    var st := Run(INITIAL, steps);
    RunKeepsInv(INITIAL, steps);
    forall i, j | 0 <= i < j < |st.granted| && st.granted[i].name == st.granted[j].name
      ensures st.granted[i].start + st.granted[i].count <= st.granted[j].start
    {
      FrontConsecutive(st.granted, j);
      assert st.granted[..j][i] == st.granted[i];
      EndGrows(st.granted[..j], i);
    }
    forall v ensures Granted(st.granted, name, v) <==> 1 <= v < NextOf(st, name) {
      CoversExactly(st.granted, name, v);
    }
  }

  // ── the loop of one call ─────────────────────────────────────────────────

  lemma {:induction false} RunAppend(st: State, a: seq<Step>, b: seq<Step>)
    ensures Run(st, a + b) == Run(Run(st, a), b)
    decreases |a|
  {
    if a == [] {
      assert a + b == b;
    } else {
      RunAppend(Next(st, a[0]), a[1..], b);
      assert (a + b)[0] == a[0] && (a + b)[1..] == a[1..] + b;
    }
  }

  lemma RunOne(st: State, step: Step)
    ensures Run(st, [step]) == Next(st, step)
  {
    assert [step][1..] == [];
  }

  const MAX_RETRIES := 10_000

  /** An attempt up to its commit, while the others take their steps. */
  function Attempted(st: State, id: nat, name: string, count: int, others: seq<Step>): State {
    Run(Next(st, Read(id, name, count)), others)
  }

  /** The state after attempts that were made one after the other. */
  function AfterAttempts(before: State, id: nat, name: string, count: int, others: seq<seq<Step>>): State {
    if others == [] then before
    else
      var n := |others| - 1;
      Next(Attempted(AfterAttempts(before, id, name, count, others[..n]), id, name, count, others[n]), TryCommit(id))
  }

  /** Between the read and the commit of an attempt, another call is granted a range of the
      sequence. */
  predicate GrantedMeanwhile(st: State, id: nat, name: string, count: int, others: seq<Step>) {
    var after := Attempted(st, id, name, count, others);
    exists i :: |st.granted| <= i < |after.granted| && after.granted[i].name == name
  }

  /** Attempt `k` meets a grant to another call. */
  predicate Fails(before: State, id: nat, name: string, count: int, others: seq<seq<Step>>, k: nat)
    requires k < |others|
  {
    GrantedMeanwhile(AfterAttempts(before, id, name, count, others[..k]), id, name, count, others[k])
  }

  /** One turn of the loop. */
  method AttemptOnce(before: State, id: nat, name: string, count: int, others: seq<Step>) returns (start: Option<int>, st: State)
    requires forall step :: step in others ==> step.id != id
    ensures st == Next(Attempted(before, id, name, count, others), TryCommit(id))
    ensures start == if GrantedMeanwhile(before, id, name, count, others) then None else Some(NextOf(before, name))
    ensures start.Some? ==> Grants(st, name, start.value, count)
  {
    st := Next(before, Read(id, name, count));
    OvertakenExactly(st, others, id);
    OthersKeepAttempt(st, others, id);
    st := Run(st, others);
    var attempt := st.attempts[id];
    st := Next(st, TryCommit(id));
    start := if attempt.overtaken then None else Some(attempt.start);
  }

  /** `allocate_sequence`: attempts until one commits or the retries are used up. `others[k]`
      are the steps other calls take between the read and the commit of attempt `k`. It gives
      up exactly when every attempt meets a grant to another call; otherwise the first that
      does not is granted the value it read. */
  method AllocateSequence(before: State, id: nat, name: string, count: int, others: seq<seq<Step>>)
    returns (start: Option<int>, st: State, ghost failed: nat)
    requires |others| == MAX_RETRIES + 1
    requires forall k, step :: 0 <= k < |others| && step in others[k] ==> step.id != id
    ensures failed <= |others| && forall k :: 0 <= k < failed ==> Fails(before, id, name, count, others, k)
    ensures start.None? <==> failed == |others|
    ensures start.None? ==> st == AfterAttempts(before, id, name, count, others)
    ensures start.Some? ==>
              && !Fails(before, id, name, count, others, failed)
              && start.value == NextOf(AfterAttempts(before, id, name, count, others[..failed]), name)
              && st == AfterAttempts(before, id, name, count, others[..failed + 1])
              && Grants(st, name, start.value, count)
  {
    st := before;
    failed := 0;
    var attempt := 0;
    while attempt <= MAX_RETRIES
      invariant 0 <= attempt == failed <= |others|
      invariant st == AfterAttempts(before, id, name, count, others[..attempt])
      invariant forall k :: 0 <= k < failed ==> Fails(before, id, name, count, others, k)
    {
      OneMoreAttempt(before, id, name, count, others, attempt);
      start, st := AttemptOnce(st, id, name, count, others[attempt]);
      if start.Some? {
        return;
      }
      attempt, failed := attempt + 1, failed + 1;
    }
    assert others[..|others|] == others;
    start := None;
  }

  lemma OneMoreAttempt(before: State, id: nat, name: string, count: int, others: seq<seq<Step>>, k: nat)
    requires k < |others|
    ensures AfterAttempts(before, id, name, count, others[..k + 1]) ==
            Next(Attempted(AfterAttempts(before, id, name, count, others[..k]), id, name, count, others[k]), TryCommit(id))
  {
    assert others[..k + 1][..k] == others[..k];
  }

  /** The attempts and the steps of the others are a run of the state machine. */
  lemma {:induction false} AttemptsAreRun(before: State, id: nat, name: string, count: int, others: seq<seq<Step>>) returns (steps: seq<Step>)
    ensures AfterAttempts(before, id, name, count, others) == Run(before, steps)
    ensures forall step :: step in steps && step.id != id ==> exists k :: 0 <= k < |others| && step in others[k]
    decreases |others|
  {
    if others == [] {
      steps := [];
    } else {
      var n := |others| - 1;
      var front := AttemptsAreRun(before, id, name, count, others[..n]);
      var st := Run(before, front);
      steps := front + [Read(id, name, count)] + others[n] + [TryCommit(id)];
      RunAppend(before, front, [Read(id, name, count)]);
      RunOne(st, Read(id, name, count));
      RunAppend(before, front + [Read(id, name, count)], others[n]);
      RunAppend(before, front + [Read(id, name, count)] + others[n], [TryCommit(id)]);
      RunOne(Attempted(st, id, name, count, others[n]), TryCommit(id));
    }
  }

  /** The last range granted is this one, and the next value is where it ends. */
  predicate Grants(st: State, name: string, start: int, count: int) {
    && |st.granted| > 0 && st.granted[|st.granted| - 1] == Range(name, start, count)
    && NextOf(st, name) == start + count
  }

  /** What others do leaves an attempt as it was, except that it may be overtaken. */
  lemma {:induction false} OthersKeepAttempt(st: State, steps: seq<Step>, id: nat)
    requires id in st.attempts && forall step :: step in steps ==> step.id != id
    ensures var after := Run(st, steps);
            id in after.attempts
            && after.attempts[id].(overtaken := false) == st.attempts[id].(overtaken := false)
    decreases |steps|
  {
    if steps != [] {
      assert steps[0] in steps && forall step :: step in steps[1..] ==> step in steps;
      OthersKeepAttempt(Next(st, steps[0]), steps[1..], id);
    }
  }

  /** An attempt is overtaken exactly when, since its read, somebody was granted a range of the
      same name. */
  lemma {:induction false} OvertakenExactly(st: State, steps: seq<Step>, id: nat)
    requires id in st.attempts && forall step :: step in steps ==> step.id != id
    ensures var after := Run(st, steps);
            && id in after.attempts && st.granted <= after.granted
            && (after.attempts[id].overtaken <==>
                  st.attempts[id].overtaken
                  || exists i :: |st.granted| <= i < |after.granted| && after.granted[i].name == st.attempts[id].name)
    decreases |steps|
  {
    if steps != [] {
      var next := Next(st, steps[0]);
      assert steps[0] in steps && forall step :: step in steps[1..] ==> step in steps;
      OvertakenExactly(next, steps[1..], id);
      assert |next.granted| > |st.granted| ==> next.granted[|st.granted|] == Run(st, steps).granted[|st.granted|];
    }
  }
}
