/** Set-null updates that reach a row more than once: each starts from the row as it was
    planned, so the last one stands, and with the right keys it is as if it were the only one. */
module Renulls {
  import opened Lists
  import opened Strings
  import opened Values
  import opened Schema
  import opened Overlay
  import opened Planner
  import opened Rules
  import opened Guards
  import opened Operations
  import opened Keeping
  import opened DeleteOps

  // ── the last update of each row ──────────────────────────────────────────

  /** The last update of a row in the list. */
  function LastNull(sus: seq<SetNullUpdate>, c: RowRef): (su: Option<SetNullUpdate>)
    ensures su.None? <==> c !in RowsOf(sus)
    ensures su.Some? ==> su.value in sus && NulledRow(su.value) == c
  {
    if sus == [] then None
    else if NulledRow(sus[|sus| - 1]) == c then Some(sus[|sus| - 1])
    else
      RowsGrow(sus[..|sus| - 1], sus[|sus| - 1]);
      assert sus == sus[..|sus| - 1] + [sus[|sus| - 1]];
      LastNull(sus[..|sus| - 1], c)
  }

  function NotOf(d: RowRef): SetNullUpdate -> bool {
    (su: SetNullUpdate) => NulledRow(su) != d
  }

  /** The last update of each row, in their order. */
  function Lasts(sus: seq<SetNullUpdate>): seq<SetNullUpdate> {
    if sus == [] then []
    else
      var last := sus[|sus| - 1];
      Keep(Lasts(sus[..|sus| - 1]), NotOf(NulledRow(last))) + [last]
  }

  ghost predicate OncePerRow(sus: seq<SetNullUpdate>) {
    forall i, j :: 0 <= i < j < |sus| ==> NulledRow(sus[i]) != NulledRow(sus[j])
  }

  lemma {:induction false} KeptOthers(sus: seq<SetNullUpdate>, d: RowRef, c: RowRef)
    ensures LastNull(Keep(sus, NotOf(d)), c) == if c == d then None else LastNull(sus, c)
    decreases |sus|
  {
    if sus != [] {
      var front, last := sus[..|sus| - 1], sus[|sus| - 1];
      assert sus == front + [last];
      KeptOthers(front, d, c);
      KeepAppend(front, [last], NotOf(d));
      var kept := Keep(front, NotOf(d));
      if NulledRow(last) == d {
        assert Keep([last], NotOf(d)) == [] && kept + [] == kept;
      } else {
        assert Keep([last], NotOf(d)) == [last] && (kept + [last])[..|kept|] == kept;
      }
    }
  }

  lemma {:induction false} KeptOncePerRow(sus: seq<SetNullUpdate>, p: SetNullUpdate -> bool)
    requires OncePerRow(sus)
    ensures OncePerRow(Keep(sus, p))
  {
    if sus != [] {
      var rest := Keep(sus[1..], p);
      KeptOncePerRow(sus[1..], p);
      forall su | su in rest ensures NulledRow(su) != NulledRow(sus[0]) {
        KeepHas(sus[1..], p, su);
        var i :| 0 <= i < |sus[1..]| && sus[1..][i] == su;
        assert sus[i + 1] == su;
      }
      if p(sus[0]) {
        forall i, j | 0 <= i < j < |[sus[0]] + rest| ensures NulledRow(([sus[0]] + rest)[i]) != NulledRow(([sus[0]] + rest)[j]) {
          assert ([sus[0]] + rest)[j] == rest[j - 1] && rest[j - 1] in rest;
          if i > 0 {
            assert ([sus[0]] + rest)[i] == rest[i - 1];
          }
        }
      }
    }
  }

  lemma {:induction false} LastsAre(sus: seq<SetNullUpdate>)
    ensures forall c :: LastNull(Lasts(sus), c) == LastNull(sus, c)
    ensures OncePerRow(Lasts(sus)) && forall su :: su in Lasts(sus) ==> su in sus
    decreases |sus|
  {
    if sus != [] {
      var front, last := sus[..|sus| - 1], sus[|sus| - 1];
      var d, before := NulledRow(last), Lasts(front);
      var kept := Keep(before, NotOf(d));
      LastsAre(front);
      KeptOncePerRow(before, NotOf(d));
      forall su | su in kept ensures NulledRow(su) != d && su in sus {
        KeepHas(before, NotOf(d), su);
      }
      forall c ensures LastNull(kept + [last], c) == LastNull(sus, c) {
        KeptOthers(before, d, c);
        assert (kept + [last])[..|kept|] == kept;
      }
    }
  }

  // ── what the updates accept ──────────────────────────────────────────────

  /** The update is not refused. */
  predicate Accepts(rules: Rules, planned: Txn, su: SetNullUpdate) {
    var was := Read(rules, planned, NulledRow(su));
    was.Some? ==>
      && (forall c :: c in su.columns ==> rules.Nullable(su.table, c))
      && rules.valid(su.table, NullOut(was.value, su.columns))
  }

  lemma {:induction false} AcceptsAll(rules: Rules, planned: Txn, x: Txn, sus: seq<SetNullUpdate>)
    ensures SetNullAll(rules, planned, x, sus).Accepted? <==> forall su :: su in sus ==> Accepts(rules, planned, su)
    decreases |sus|
  {
    if sus != [] {
      var front, last := sus[..|sus| - 1], sus[|sus| - 1];
      AcceptsAll(rules, planned, x, front);
      assert forall su :: su in sus <==> su in front || su == last by {
        assert sus == front + [last];
      }
      var y := SetNullAll(rules, planned, x, front);
      assert y.Accepted? ==> (SetNullOne(rules, planned, y.txn, last).Accepted? <==> Accepts(rules, planned, last));
    }
  }

  // ── one update ───────────────────────────────────────────────────────────

  lemma {:induction false} ReserveAdds(rules: Rules, x: Txn, uqs: seq<UniqueConstraint>, r: RowRef, row: Row, s: StagedUnique)
    ensures s in Reserve(rules, x, uqs, r, row, None).stagedUnique <==>
            s in x.stagedUnique || (s.owner == r && s.key in NewKeys(rules, uqs, r, row, None))
    decreases |uqs|
  {
    if uqs != [] {
      ReserveAdds(rules, x, uqs[..|uqs| - 1], r, row, s);
    }
  }

  /** The keys of the row. */
  ghost predicate IsKey(rules: Rules, table: string, row: Row, k: string) {
    exists c :: rules.HasKey(table, row, c, k)
  }

  lemma KeysAreNew(rules: Rules, r: RowRef, row: Row, k: string)
    requires rules.WellFormed()
    ensures k in NewKeys(rules, rules.Guarded(r.table), r, row, None) <==> IsKey(rules, r.table, row, k)
  {
    var uqs := rules.Guarded(r.table);
    if k in NewKeys(rules, uqs, r, row, None) {
      var uq := NewKeysFrom(rules, uqs, r, row, None, k);
      assert rules.HasKey(r.table, row, uq.name, k);
    }
    if c :| rules.HasKey(r.table, row, c, k) {
      var uq :| uq in uqs && uq.name == c && rules.key(r.table, uq, row) == Some(k);
      NewKeysHas(rules, uqs, r, row, None, uq, k);
    }
  }

  /** What a set-null does to keys, whatever has been written before. */
  lemma NulledGuards(rules: Rules, x: Txn, r: RowRef, row: Row)
    requires rules.WellFormed()
    ensures var y := SetNullRow(rules, x, r, row);
            && y.writes.owners == x.writes.owners + NewKeys(rules, rules.Guarded(r.table), r, row, None)
            && y.writes.ownerDels == x.writes.ownerDels + OwnedKeys(rules, x.snapshot, r)
            && forall s :: s in y.stagedUnique <==>
                 (s in x.stagedUnique && s.owner != r) || (s.owner == r && IsKey(rules, r.table, row, s.key))
  {
    var cleared := PutRow(DropRow(DropOwned(rules, x, r), r), r, row);
    ClearedReserves(rules, x, r, row);
    ReservesAll(rules, cleared, r, row, true);
    var y := SetNullRow(rules, x, r, row);
    forall s: StagedUnique
      ensures s in y.stagedUnique <==> (s in x.stagedUnique && s.owner != r) || (s.owner == r && IsKey(rules, r.table, row, s.key))
    {
      ReserveAdds(rules, cleared, rules.Guarded(r.table), r, row, s);
      WithoutOwnerHas(x.stagedUnique, r, s);
      KeysAreNew(rules, r, row, s.key);
    }
  }

  // ── all updates ──────────────────────────────────────────────────────────

  /** The updates reach the row, and it is there. */
  predicate NullsRow(x: Txn, sus: seq<SetNullUpdate>, c: RowRef) {
    c in RowsOf(sus) && c in View(x).rows
  }

  /** The row as its last update leaves it. */
  function NulledLast(x: Txn, sus: seq<SetNullUpdate>, c: RowRef): Row
    requires NullsRow(x, sus, c)
  {
    NullOut(View(x).rows[c], LastNull(sus, c).value.columns)
  }

  /** The updated rows have not been written before. */
  ghost predicate Unwritten(x: Txn, sus: seq<SetNullUpdate>) {
    forall su :: su in sus ==> !WroteRow(x.writes, NulledRow(su))
  }

  lemma NullsRowMore(x: Txn, sus: seq<SetNullUpdate>, c: RowRef)
    requires sus != []
    ensures var front, last := sus[..|sus| - 1], sus[|sus| - 1];
            && (NullsRow(x, sus, c) <==> NullsRow(x, front, c) || (c == NulledRow(last) && c in View(x).rows))
            && (NullsRow(x, sus, c) ==>
                  NulledLast(x, sus, c) == if c == NulledRow(last) then NullOut(View(x).rows[c], last.columns) else NulledLast(x, front, c))
  {
    var front, last := sus[..|sus| - 1], sus[|sus| - 1];
    assert sus == front + [last];
    RowsGrow(front, last);
  }

  /** Each accepted update is one set-null of a visible row, or nothing. */
  lemma LastUpdate(rules: Rules, x: Txn, sus: seq<SetNullUpdate>)
    requires sus != [] && Faithful(rules, x) && Unwritten(x, sus) && SetNullAll(rules, x, x, sus).Accepted?
    ensures var front, last := sus[..|sus| - 1], sus[|sus| - 1];
            var c, y, z := NulledRow(last), SetNullAll(rules, x, x, front), SetNullAll(rules, x, x, sus).txn;
            && y.Accepted? && Unwritten(x, front)
            && (c !in View(x).rows ==> z == y.txn)
            && (c in View(x).rows ==>
                  && z == SetNullRow(rules, y.txn, c, NullOut(View(x).rows[c], last.columns))
                  && rules.valid(c.table, NullOut(View(x).rows[c], last.columns))
                  && forall col :: col in last.columns ==> rules.Nullable(c.table, col))
  {
    var front, last := sus[..|sus| - 1], sus[|sus| - 1];
    assert last in sus && forall su :: su in front ==> su in sus;
    SetNullOneIs(rules, x, SetNullAll(rules, x, x, front).txn, last);
  }

  /** The rows after the updates. */
  ghost predicate RowsNulled(x: Txn, y: Txn, sus: seq<SetNullUpdate>) {
    && y.snapshot == x.snapshot
    && y.writes.guards == x.writes.guards && y.writes.guardDels == x.writes.guardDels && y.touched == x.touched
    && (forall c :: c in y.writes.rows <==> c in x.writes.rows || NullsRow(x, sus, c))
    && (forall c :: c in y.writes.rows ==> y.writes.rows[c] == if NullsRow(x, sus, c) then NulledLast(x, sus, c) else x.writes.rows[c])
    && (forall c :: c in y.writes.rowDels <==> c in x.writes.rowDels || NullsRow(x, sus, c))
  }

  lemma {:induction false} NullRowsAre(rules: Rules, x: Txn, sus: seq<SetNullUpdate>)
    requires Faithful(rules, x) && Unwritten(x, sus) && SetNullAll(rules, x, x, sus).Accepted?
    ensures RowsNulled(x, SetNullAll(rules, x, x, sus).txn, sus)
    decreases |sus|
  {
    if sus != [] {
      var front, last := sus[..|sus| - 1], sus[|sus| - 1];
      var c, y, z := NulledRow(last), SetNullAll(rules, x, x, front).txn, SetNullAll(rules, x, x, sus).txn;
      LastUpdate(rules, x, sus);
      NullRowsAre(rules, x, front);
      forall d ensures NullsRow(x, sus, d) <==> NullsRow(x, front, d) || (d == c && d in View(x).rows) {
        NullsRowMore(x, sus, d);
      }
      forall d | NullsRow(x, sus, d)
        ensures NulledLast(x, sus, d) == if d == c then NullOut(View(x).rows[d], last.columns) else NulledLast(x, front, d)
      {
        NullsRowMore(x, sus, d);
      }
      if c in View(x).rows {
        SetNullWrites(rules, y, c, NullOut(View(x).rows[c], last.columns));
        assert !WroteRow(x.writes, c) by {
          assert last in sus;
        }
        UnwrittenIsSnapshot(x, c);
      }
    }
  }

  /** A key some update leaves its row. */
  ghost predicate NullKey(rules: Rules, x: Txn, sus: seq<SetNullUpdate>, k: string) {
    exists su :: su in sus && KeyAfter(rules, x, su, k)
  }

  ghost predicate KeyAfter(rules: Rules, x: Txn, su: SetNullUpdate, k: string) {
    NulledRow(su) in View(x).rows && IsKey(rules, su.table, NullOut(View(x).rows[NulledRow(su)], su.columns), k)
  }

  /** Such a key is the row's own, from the snapshot on. */
  lemma KeyAfterIsOwn(rules: Rules, x: Txn, su: SetNullUpdate, k: string)
    requires rules.WellFormed() && Local(rules, x) && !WroteRow(x.writes, NulledRow(su)) && KeyAfter(rules, x, su, k)
    ensures k !in x.writes.owners && k in x.snapshot.owners && x.snapshot.owners[k].row == NulledRow(su)
    ensures k in NewKeys(rules, rules.Guarded(su.table), NulledRow(su), NullOut(View(x).rows[NulledRow(su)], su.columns), None)
    ensures NewKeys(rules, rules.Guarded(su.table), NulledRow(su), NullOut(View(x).rows[NulledRow(su)], su.columns), None)[k]
         == x.snapshot.owners[k]
  {
    var r := NulledRow(su);
    var row := NullOut(View(x).rows[r], su.columns);
    KeysAreNew(rules, r, row, k);
    var uq := NewKeysFrom(rules, rules.Guarded(r.table), r, row, None, k);
    OldKeyIsOwned(rules, x, r, uq, k);
  }

  ghost predicate Released(rules: Rules, x: Txn, sus: seq<SetNullUpdate>, k: string) {
    exists c :: NullsRow(x, sus, c) && k in OwnedKeys(rules, x.snapshot, c)
  }

  /** The keys put after the updates. */
  ghost predicate PutsNulled(rules: Rules, x: Txn, owners: map<string, Owner>, sus: seq<SetNullUpdate>) {
    forall k ::
      && (k in owners <==> k in x.writes.owners || NullKey(rules, x, sus, k))
      && (k in owners ==>
            if NullKey(rules, x, sus, k) then k in x.snapshot.owners && owners[k] == x.snapshot.owners[k]
            else owners[k] == x.writes.owners[k])
  }

  /** The keys released after the updates. */
  ghost predicate DelsNulled(rules: Rules, x: Txn, dels: set<string>, sus: seq<SetNullUpdate>) {
    forall k :: k in dels <==> k in x.writes.ownerDels || Released(rules, x, sus, k)
  }

  lemma NullKeyMore(rules: Rules, x: Txn, sus: seq<SetNullUpdate>, k: string)
    requires sus != []
    ensures NullKey(rules, x, sus, k) <==> NullKey(rules, x, sus[..|sus| - 1], k) || KeyAfter(rules, x, sus[|sus| - 1], k)
  {
    var front, last := sus[..|sus| - 1], sus[|sus| - 1];
    assert forall su :: su in sus <==> su in front || su == last by {
      assert sus == front + [last];
    }
  }

  lemma ReleasedMore(rules: Rules, x: Txn, sus: seq<SetNullUpdate>, k: string)
    requires sus != []
    ensures var c := NulledRow(sus[|sus| - 1]);
            Released(rules, x, sus, k) <==>
            Released(rules, x, sus[..|sus| - 1], k) || (c in View(x).rows && k in OwnedKeys(rules, x.snapshot, c))
  {
    forall c ensures NullsRow(x, sus, c) <==> NullsRow(x, sus[..|sus| - 1], c) || (c == NulledRow(sus[|sus| - 1]) && c in View(x).rows) {
      NullsRowMore(x, sus, c);
    }
  }

  lemma PutsMore(rules: Rules, x: Txn, owners: map<string, Owner>, added: map<string, Owner>, sus: seq<SetNullUpdate>)
    requires sus != [] && PutsNulled(rules, x, owners, sus[..|sus| - 1])
    requires forall k :: k in added <==> KeyAfter(rules, x, sus[|sus| - 1], k)
    requires forall k :: k in added ==> k in x.snapshot.owners && added[k] == x.snapshot.owners[k]
    ensures PutsNulled(rules, x, owners + added, sus)
  {
    forall k ensures NullKey(rules, x, sus, k) <==> NullKey(rules, x, sus[..|sus| - 1], k) || k in added {
      NullKeyMore(rules, x, sus, k);
    }
  }

  /** The keys of the updated row. */
  ghost function Added(rules: Rules, x: Txn, su: SetNullUpdate): map<string, Owner>
    requires NulledRow(su) in View(x).rows
  {
    NewKeys(rules, rules.Guarded(su.table), NulledRow(su), NullOut(View(x).rows[NulledRow(su)], su.columns), None)
  }

  lemma AddedAre(rules: Rules, x: Txn, su: SetNullUpdate)
    requires rules.WellFormed() && Local(rules, x) && !WroteRow(x.writes, NulledRow(su)) && NulledRow(su) in View(x).rows
    ensures forall k :: k in Added(rules, x, su) <==> KeyAfter(rules, x, su, k)
    ensures forall k :: k in Added(rules, x, su) ==> k in x.snapshot.owners && Added(rules, x, su)[k] == x.snapshot.owners[k]
  {
    forall k
      ensures k in Added(rules, x, su) <==> KeyAfter(rules, x, su, k)
      ensures k in Added(rules, x, su) ==> k in x.snapshot.owners && Added(rules, x, su)[k] == x.snapshot.owners[k]
    {
      KeysAreNew(rules, NulledRow(su), NullOut(View(x).rows[NulledRow(su)], su.columns), k);
      if KeyAfter(rules, x, su, k) {
        KeyAfterIsOwn(rules, x, su, k);
      }
    }
  }

  lemma NoUpdates(rules: Rules, x: Txn)
    ensures PutsNulled(rules, x, x.writes.owners, []) && DelsNulled(rules, x, x.writes.ownerDels, [])
  {
    assert RowsOf([]) == {};
  }

  lemma DelsMore(rules: Rules, x: Txn, dels: set<string>, sus: seq<SetNullUpdate>)
    requires sus != [] && DelsNulled(rules, x, dels, sus[..|sus| - 1])
    ensures var c := NulledRow(sus[|sus| - 1]);
            DelsNulled(rules, x, if c in View(x).rows then dels + OwnedKeys(rules, x.snapshot, c) else dels, sus)
  {
    forall k
      ensures var c := NulledRow(sus[|sus| - 1]);
              Released(rules, x, sus, k) <==>
              Released(rules, x, sus[..|sus| - 1], k) || (c in View(x).rows && k in OwnedKeys(rules, x.snapshot, c))
    {
      ReleasedMore(rules, x, sus, k);
    }
  }

  lemma {:induction false} NullKeysAre(rules: Rules, x: Txn, sus: seq<SetNullUpdate>)
    requires rules.WellFormed() && Local(rules, x) && Unwritten(x, sus) && SetNullAll(rules, x, x, sus).Accepted?
    ensures var y := SetNullAll(rules, x, x, sus).txn;
            PutsNulled(rules, x, y.writes.owners, sus) && DelsNulled(rules, x, y.writes.ownerDels, sus)
    decreases |sus|
  {
    if sus == [] {
      NoUpdates(rules, x);
    } else {
      LastUpdate(rules, x, sus);
      NullKeysAre(rules, x, sus[..|sus| - 1]);
      NullRowsAre(rules, x, sus[..|sus| - 1]);
      var y, last := SetNullAll(rules, x, x, sus[..|sus| - 1]).txn, sus[|sus| - 1];
      DelsMore(rules, x, y.writes.ownerDels, sus);
      if NulledRow(last) in View(x).rows {
        assert last in sus;
        VisibleStep(rules, x, y.writes.owners, sus);
        OneNulled(rules, x, y, last);
      } else {
        InvisibleStep(rules, x, y.writes.owners, sus);
      }
    }
  }

  lemma VisibleStep(rules: Rules, x: Txn, owners: map<string, Owner>, sus: seq<SetNullUpdate>)
    requires rules.WellFormed() && Local(rules, x) && sus != [] && !WroteRow(x.writes, NulledRow(sus[|sus| - 1]))
    requires PutsNulled(rules, x, owners, sus[..|sus| - 1]) && NulledRow(sus[|sus| - 1]) in View(x).rows
    ensures PutsNulled(rules, x, owners + Added(rules, x, sus[|sus| - 1]), sus)
  {
    AddedAre(rules, x, sus[|sus| - 1]);
    PutsMore(rules, x, owners, Added(rules, x, sus[|sus| - 1]), sus);
  }

  lemma InvisibleStep(rules: Rules, x: Txn, owners: map<string, Owner>, sus: seq<SetNullUpdate>)
    requires sus != [] && PutsNulled(rules, x, owners, sus[..|sus| - 1]) && NulledRow(sus[|sus| - 1]) !in View(x).rows
    ensures PutsNulled(rules, x, owners, sus)
  {
    forall k ensures NullKey(rules, x, sus, k) <==> NullKey(rules, x, sus[..|sus| - 1], k) {
      NullKeyMore(rules, x, sus, k);
    }
  }

  lemma OneNulled(rules: Rules, x: Txn, y: Txn, su: SetNullUpdate)
    requires rules.WellFormed() && y.snapshot == x.snapshot && NulledRow(su) in View(x).rows
    ensures var c := NulledRow(su);
            var z := SetNullRow(rules, y, c, NullOut(View(x).rows[c], su.columns));
            && z.writes.owners == y.writes.owners + Added(rules, x, su)
            && z.writes.ownerDels == y.writes.ownerDels + OwnedKeys(rules, x.snapshot, c)
            && forall s :: s in z.stagedUnique <==>
                 (s in y.stagedUnique && s.owner != c) || (s.owner == c && KeyAfter(rules, x, su, s.key))
  {
    NulledGuards(rules, y, NulledRow(su), NullOut(View(x).rows[NulledRow(su)], su.columns));
  }

  /** The reserved keys after the updates. */
  ghost predicate StagedNulled(rules: Rules, x: Txn, entries: seq<StagedUnique>, sus: seq<SetNullUpdate>) {
    forall s :: s in entries <==>
      if NullsRow(x, sus, s.owner) then IsKey(rules, s.owner.table, NulledLast(x, sus, s.owner), s.key) else s in x.stagedUnique
  }

  lemma {:induction false} NullStagedAre(rules: Rules, x: Txn, sus: seq<SetNullUpdate>)
    requires rules.WellFormed() && Faithful(rules, x) && Unwritten(x, sus) && SetNullAll(rules, x, x, sus).Accepted?
    ensures StagedNulled(rules, x, SetNullAll(rules, x, x, sus).txn.stagedUnique, sus)
    decreases |sus|
  {
    if sus != [] {
      var front, last := sus[..|sus| - 1], sus[|sus| - 1];
      var y := SetNullAll(rules, x, x, front).txn;
      LastUpdate(rules, x, sus);
      NullStagedAre(rules, x, front);
      NullRowsAre(rules, x, front);
      if NulledRow(last) in View(x).rows {
        OneNulled(rules, x, y, last);
      }
      forall s: StagedUnique
        ensures NullsRow(x, sus, s.owner) <==> NullsRow(x, front, s.owner) || (s.owner == NulledRow(last) && s.owner in View(x).rows)
        ensures NullsRow(x, sus, s.owner) ==>
                  NulledLast(x, sus, s.owner)
                  == if s.owner == NulledRow(last) then NullOut(View(x).rows[s.owner], last.columns) else NulledLast(x, front, s.owner)
      {
        NullsRowMore(x, sus, s.owner);
      }
    }
  }

  /** What is read after the updates. */
  ghost predicate ReadsNulled(rules: Rules, x: Txn, y: Txn, sus: seq<SetNullUpdate>) {
    && UpdatesKeepPk(rules, y)
    && (forall c :: Read(rules, y, c) == if NullsRow(x, sus, c) then Some(NulledLast(x, sus, c)) else Read(rules, x, c))
    && (forall t :: DataStagedFor(y.staged, t) <==> DataStagedFor(x.staged, t) || NullsTable(x, sus, t))
  }

  ghost predicate NullsTable(x: Txn, sus: seq<SetNullUpdate>, t: string) {
    exists c :: NullsRow(x, sus, c) && c.table == t
  }

  lemma StagedUpdate(rules: Rules, y: Txn, z: Txn, c: RowRef, row: Row)
    requires z.snapshot == y.snapshot && z.staged == y.staged + [Update(c.table, c.pk, 0, row)]
    requires rules.pk(c.table, row) == c.pk && UpdatesKeepPk(rules, y)
    ensures UpdatesKeepPk(rules, z)
    ensures forall d :: Read(rules, z, d) == if d == c then Some(row) else Read(rules, y, d)
    ensures forall t :: DataStagedFor(z.staged, t) <==> DataStagedFor(y.staged, t) || t == c.table
  {
    var op := Update(c.table, c.pk, 0, row);
    assert z.staged[..|y.staged|] == y.staged && z.staged[|y.staged|] == op;
    forall d: RowRef ensures Read(rules, z, d) == if d == c then Some(row) else Read(rules, y, d) {
      ReadsAfter(rules, y, z, d.table);
    }
    assert forall o :: o in z.staged <==> o in y.staged || o == op;
  }

  lemma {:induction false} NullReadsAre(rules: Rules, x: Txn, sus: seq<SetNullUpdate>)
    requires rules.WellFormed() && Local(rules, x) && Unwritten(x, sus) && SetNullAll(rules, x, x, sus).Accepted?
    ensures ReadsNulled(rules, x, SetNullAll(rules, x, x, sus).txn, sus)
    decreases |sus|
  {
    if sus == [] {
      assert RowsOf(sus) == {};
    } else {
      var front, last := sus[..|sus| - 1], sus[|sus| - 1];
      LastUpdate(rules, x, sus);
      NullReadsAre(rules, x, front);
      NullRowsAre(rules, x, front);
      NullReadsStep(rules, x, SetNullAll(rules, x, x, front).txn, SetNullAll(rules, x, x, sus).txn, sus);
    }
  }

  lemma NullReadsStep(rules: Rules, x: Txn, y: Txn, z: Txn, sus: seq<SetNullUpdate>)
    requires rules.NullingShrinks() && UnderPk(rules, View(x)) && sus != []
    requires y.snapshot == x.snapshot && ReadsNulled(rules, x, y, sus[..|sus| - 1])
    requires var last := sus[|sus| - 1];
             var c := NulledRow(last);
             && (c !in View(x).rows ==> z == y)
             && (c in View(x).rows ==>
                   z == SetNullRow(rules, y, c, NullOut(View(x).rows[c], last.columns)) && forall col :: col in last.columns ==> rules.Nullable(c.table, col))
    ensures ReadsNulled(rules, x, z, sus)
  {
    var front, last := sus[..|sus| - 1], sus[|sus| - 1];
    var c := NulledRow(last);
    forall d
      ensures NullsRow(x, sus, d) <==> NullsRow(x, front, d) || (d == c && d in View(x).rows)
      ensures NullsRow(x, sus, d) ==>
                NulledLast(x, sus, d) == if d == c then NullOut(View(x).rows[d], last.columns) else NulledLast(x, front, d)
    {
      NullsRowMore(x, sus, d);
    }
    if c in View(x).rows {
      var row := NullOut(View(x).rows[c], last.columns);
      NulledKeepsPk(rules, View(x), c, last.columns);
      SetNullWrites(rules, y, c, row);
      StagedUpdate(rules, y, z, c, row);
    }
    forall t ensures NullsTable(x, sus, t) <==> NullsTable(x, front, t) || (c in View(x).rows && t == c.table) {
      NullsTableMore(x, sus, t);
    }
  }

  lemma NullsTableMore(x: Txn, sus: seq<SetNullUpdate>, t: string)
    requires sus != []
    ensures var c := NulledRow(sus[|sus| - 1]);
            NullsTable(x, sus, t) <==> NullsTable(x, sus[..|sus| - 1], t) || (c in View(x).rows && t == c.table)
  {
    var c := NulledRow(sus[|sus| - 1]);
    forall d ensures NullsRow(x, sus, d) <==> NullsRow(x, sus[..|sus| - 1], d) || (d == c && d in View(x).rows) {
      NullsRowMore(x, sus, d);
    }
    if c in View(x).rows {
      assert NullsRow(x, sus, c);
    }
  }

  // ── what may be told apart ───────────────────────────────────────────────

  /** The two transactions differ in the order of what they have staged at most. */
  ghost predicate Equivalent(rules: Rules, y: Txn, z: Txn) {
    && y.snapshot == z.snapshot && y.writes == z.writes && y.touched == z.touched
    && (forall s :: s in y.stagedUnique <==> s in z.stagedUnique)
    && (UpdatesKeepPk(rules, y) <==> UpdatesKeepPk(rules, z))
    && (forall c :: Read(rules, y, c) == Read(rules, z, c))
    && (forall t :: DataStagedFor(y.staged, t) <==> DataStagedFor(z.staged, t))
  }

  lemma EquivalentLocal(rules: Rules, y: Txn, z: Txn)
    requires Equivalent(rules, y, z) && Local(rules, y)
    ensures Local(rules, z)
  {
    forall c: RowRef ensures FaithfulAt(rules, z, c) {
      assert FaithfulAt(rules, y, c);
      assert Read(rules, y, c) == Read(rules, z, c);
    }
  }

  lemma EquivalentStage(rules: Rules, y: Txn, z: Txn, y1: Txn, z1: Txn, op: StagedOp)
    requires Equivalent(rules, y, z) && op.Delete?
    requires y1.staged == y.staged + [op] && z1.staged == z.staged + [op]
    requires y1.snapshot == y.snapshot && z1.snapshot == z.snapshot && y1.writes == z1.writes && y1.touched == z1.touched
    requires forall s :: s in y1.stagedUnique <==> s in z1.stagedUnique
    ensures Equivalent(rules, y1, z1)
  {
    assert y1.staged[..|y.staged|] == y.staged && z1.staged[..|z.staged|] == z.staged;
    forall c: RowRef ensures Read(rules, y1, c) == Read(rules, z1, c) {
      ReadsAfter(rules, y, y1, c.table);
      ReadsAfter(rules, z, z1, c.table);
      assert Read(rules, y, c) == Read(rules, z, c);
    }
    StagedMore(rules, y, y1, op);
    StagedMore(rules, z, z1, op);
  }

  lemma StagedMore(rules: Rules, y: Txn, z: Txn, op: StagedOp)
    requires op.Delete? && z.staged == y.staged + [op]
    ensures forall t :: DataStagedFor(z.staged, t) <==> DataStagedFor(y.staged, t) || t == op.table
    ensures UpdatesKeepPk(rules, z) <==> UpdatesKeepPk(rules, y)
  {
    assert forall o :: o in z.staged <==> o in y.staged || o == op;
  }

  lemma EquivalentDrop(rules: Rules, y: Txn, z: Txn, r: RowRef, s: StagedUnique)
    requires Equivalent(rules, y, z)
    ensures s in WithoutOwner(y.stagedUnique, r) <==> s in WithoutOwner(z.stagedUnique, r)
  {
    WithoutOwnerHas(y.stagedUnique, r, s);
    WithoutOwnerHas(z.stagedUnique, r, s);
  }

  lemma EquivalentDelete(rules: Rules, y: Txn, z: Txn, r: RowRef)
    requires Equivalent(rules, y, z)
    ensures Equivalent(rules, DeleteRow(rules, y, r), DeleteRow(rules, z, r))
    ensures Equivalent(rules, DeleteTarget(rules, y, r), DeleteTarget(rules, z, r))
  {
    forall s ensures s in WithoutOwner(y.stagedUnique, r) <==> s in WithoutOwner(z.stagedUnique, r) {
      EquivalentDrop(rules, y, z, r, s);
    }
    EquivalentStage(rules, y, z, DeleteRow(rules, y, r), DeleteRow(rules, z, r), Delete(r.table, r.pk));
    EquivalentStage(rules, y, z, DeleteTarget(rules, y, r), DeleteTarget(rules, z, r), Delete(r.table, r.pk));
  }

  lemma {:induction false} EquivalentCascades(rules: Rules, planned: Txn, y: Txn, z: Txn, rows: seq<RowRef>, table: string)
    requires Equivalent(rules, y, z)
    ensures Equivalent(rules, CascadeAll(rules, planned, y, rows, table), CascadeAll(rules, planned, z, rows, table))
    decreases |rows|
  {
    if rows != [] {
      var front, r := rows[..|rows| - 1], rows[|rows| - 1];
      EquivalentCascades(rules, planned, y, z, front, table);
      EquivalentDelete(rules, CascadeAll(rules, planned, y, front, table), CascadeAll(rules, planned, z, front, table), r);
    }
  }

  // ── the last updates alone ───────────────────────────────────────────────

  /** No earlier update of a row leaves it a key that the last one takes. */
  ghost predicate NoKeysLost(rules: Rules, x: Txn, sus: seq<SetNullUpdate>) {
    forall su, k :: su in sus && KeyAfter(rules, x, su, k) ==> KeyAfter(rules, x, LastNull(sus, NulledRow(su)).value, k)
  }

  /** Then the updates do what the last ones of each row do alone. */
  lemma LastsAreEnough(rules: Rules, x: Txn, sus: seq<SetNullUpdate>)
    requires rules.WellFormed() && Local(rules, x) && Unwritten(x, sus) && NoKeysLost(rules, x, sus)
    requires SetNullAll(rules, x, x, sus).Accepted?
    ensures SetNullAll(rules, x, x, Lasts(sus)).Accepted? && Unwritten(x, Lasts(sus))
    ensures Equivalent(rules, SetNullAll(rules, x, x, Lasts(sus)).txn, SetNullAll(rules, x, x, sus).txn)
  {
    var tus := Lasts(sus);
    LastsAre(sus);
    AcceptsAll(rules, x, x, sus);
    AcceptsAll(rules, x, x, tus);
    var y, z := SetNullAll(rules, x, x, tus).txn, SetNullAll(rules, x, x, sus).txn;
    forall c
      ensures NullsRow(x, tus, c) <==> NullsRow(x, sus, c)
      ensures NullsRow(x, sus, c) ==> NulledLast(x, tus, c) == NulledLast(x, sus, c)
    {
      SameLast(x, sus, c);
    }
    LastsWriteTheSame(rules, x, sus);
    NullStagedAre(rules, x, sus);
    NullStagedAre(rules, x, tus);
    NullReadsAre(rules, x, sus);
    NullReadsAre(rules, x, tus);
    SameReads(rules, x, y, z, tus, sus);
  }

  lemma SameLast(x: Txn, sus: seq<SetNullUpdate>, c: RowRef)
    ensures NullsRow(x, Lasts(sus), c) <==> NullsRow(x, sus, c)
    ensures NullsRow(x, sus, c) ==> NulledLast(x, Lasts(sus), c) == NulledLast(x, sus, c)
  {
    LastsAre(sus);
    assert LastNull(Lasts(sus), c) == LastNull(sus, c);
  }

  lemma LastsWriteTheSame(rules: Rules, x: Txn, sus: seq<SetNullUpdate>)
    requires rules.WellFormed() && Local(rules, x) && Unwritten(x, sus) && Unwritten(x, Lasts(sus)) && NoKeysLost(rules, x, sus)
    requires SetNullAll(rules, x, x, sus).Accepted? && SetNullAll(rules, x, x, Lasts(sus)).Accepted?
    ensures var y, z := SetNullAll(rules, x, x, Lasts(sus)).txn, SetNullAll(rules, x, x, sus).txn;
            y.writes == z.writes && y.snapshot == z.snapshot && y.touched == z.touched
  {
    forall c
      ensures NullsRow(x, Lasts(sus), c) <==> NullsRow(x, sus, c)
      ensures NullsRow(x, sus, c) ==> NulledLast(x, Lasts(sus), c) == NulledLast(x, sus, c)
    {
      SameLast(x, sus, c);
    }
    forall k ensures NullKey(rules, x, Lasts(sus), k) <==> NullKey(rules, x, sus, k) {
      SameNullKeys(rules, x, sus, k);
    }
    NullRowsAre(rules, x, sus);
    NullRowsAre(rules, x, Lasts(sus));
    NullKeysAre(rules, x, sus);
    NullKeysAre(rules, x, Lasts(sus));
    SameWrites(rules, x, SetNullAll(rules, x, x, Lasts(sus)).txn, SetNullAll(rules, x, x, sus).txn, Lasts(sus), sus);
  }

  lemma SameReads(rules: Rules, x: Txn, y: Txn, z: Txn, tus: seq<SetNullUpdate>, sus: seq<SetNullUpdate>)
    requires ReadsNulled(rules, x, y, tus) && ReadsNulled(rules, x, z, sus)
    requires StagedNulled(rules, x, y.stagedUnique, tus) && StagedNulled(rules, x, z.stagedUnique, sus)
    requires forall c :: NullsRow(x, tus, c) <==> NullsRow(x, sus, c)
    requires forall c :: NullsRow(x, sus, c) ==> NulledLast(x, tus, c) == NulledLast(x, sus, c)
    ensures forall s :: s in y.stagedUnique <==> s in z.stagedUnique
    ensures UpdatesKeepPk(rules, y) && UpdatesKeepPk(rules, z)
    ensures forall c :: Read(rules, y, c) == Read(rules, z, c)
    ensures forall t :: DataStagedFor(y.staged, t) <==> DataStagedFor(z.staged, t)
  {
    forall s: StagedUnique ensures s in y.stagedUnique <==> s in z.stagedUnique {
      assert NullsRow(x, tus, s.owner) <==> NullsRow(x, sus, s.owner);
    }
    forall t ensures NullsTable(x, tus, t) <==> NullsTable(x, sus, t) {
    }
  }

  lemma SameNullKeys(rules: Rules, x: Txn, sus: seq<SetNullUpdate>, k: string)
    requires NoKeysLost(rules, x, sus)
    ensures NullKey(rules, x, Lasts(sus), k) <==> NullKey(rules, x, sus, k)
  {
    LastsAre(sus);
    if su :| su in sus && KeyAfter(rules, x, su, k) {
      var last := LastNull(sus, NulledRow(su)).value;
      assert LastNull(Lasts(sus), NulledRow(su)) == Some(last) && last in Lasts(sus);
      assert KeyAfter(rules, x, last, k);
    }
  }

  lemma SameWrites(rules: Rules, x: Txn, y: Txn, z: Txn, tus: seq<SetNullUpdate>, sus: seq<SetNullUpdate>)
    requires RowsNulled(x, y, tus) && RowsNulled(x, z, sus)
    requires PutsNulled(rules, x, y.writes.owners, tus) && PutsNulled(rules, x, z.writes.owners, sus)
    requires DelsNulled(rules, x, y.writes.ownerDels, tus) && DelsNulled(rules, x, z.writes.ownerDels, sus)
    requires forall c :: NullsRow(x, tus, c) <==> NullsRow(x, sus, c)
    requires forall c :: NullsRow(x, sus, c) ==> NulledLast(x, tus, c) == NulledLast(x, sus, c)
    requires forall k :: NullKey(rules, x, tus, k) <==> NullKey(rules, x, sus, k)
    ensures y.writes == z.writes && y.snapshot == z.snapshot && y.touched == z.touched
  {
    SameRows(x, y, z, tus, sus);
    SamePuts(rules, x, y.writes.owners, z.writes.owners, tus, sus);
    SameDels(rules, x, y.writes.ownerDels, z.writes.ownerDels, tus, sus);
  }

  lemma SameRows(x: Txn, y: Txn, z: Txn, tus: seq<SetNullUpdate>, sus: seq<SetNullUpdate>)
    requires RowsNulled(x, y, tus) && RowsNulled(x, z, sus)
    requires forall c :: NullsRow(x, tus, c) <==> NullsRow(x, sus, c)
    requires forall c :: NullsRow(x, sus, c) ==> NulledLast(x, tus, c) == NulledLast(x, sus, c)
    ensures y.writes.rows == z.writes.rows && y.writes.rowDels == z.writes.rowDels
  {
    forall c
      ensures c in y.writes.rows <==> c in z.writes.rows
      ensures c in y.writes.rows ==> y.writes.rows[c] == z.writes.rows[c]
      ensures c in y.writes.rowDels <==> c in z.writes.rowDels
    {
      assert NullsRow(x, tus, c) <==> NullsRow(x, sus, c);
    }
  }

  lemma SamePuts(rules: Rules, x: Txn, m: map<string, Owner>, n: map<string, Owner>, tus: seq<SetNullUpdate>, sus: seq<SetNullUpdate>)
    requires PutsNulled(rules, x, m, tus) && PutsNulled(rules, x, n, sus)
    requires forall k :: NullKey(rules, x, tus, k) <==> NullKey(rules, x, sus, k)
    ensures m == n
  {
    assert m.Keys == n.Keys;
  }

  lemma SameDels(rules: Rules, x: Txn, m: set<string>, n: set<string>, tus: seq<SetNullUpdate>, sus: seq<SetNullUpdate>)
    requires DelsNulled(rules, x, m, tus) && DelsNulled(rules, x, n, sus)
    requires forall c :: NullsRow(x, tus, c) <==> NullsRow(x, sus, c)
    ensures m == n
  {
    forall k ensures Released(rules, x, tus, k) <==> Released(rules, x, sus, k) {
    }
  }
}
