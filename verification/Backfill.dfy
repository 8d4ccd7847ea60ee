/** Adding a constraint to existing data: the backfill loops, which either find that the data
    already violates the constraint or write the guards that make it hold. */
module Backfill {
  import opened Strings
  import opened Values
  import opened Schema
  import opened Planner
  import opened Rules
  import opened Guards

  function KeyOf(rules: Rules, table: string, uq: UniqueConstraint, row: Row): Option<string> {
    rules.key(table, uq, row)
  }

  function OwnerOf(rules: Rules, table: string, uq: UniqueConstraint, row: Row): Owner {
    Owner(uq.name, RowRef(table, rules.pk(table, row)))
  }

  /** Two rows with different primary keys share a key. */
  ghost predicate Clash(rules: Rules, table: string, uq: UniqueConstraint, rows: seq<Row>) {
    exists a, b :: a in rows && b in rows && Clashing(rules, table, uq, a, b)
  }

  predicate Clashing(rules: Rules, table: string, uq: UniqueConstraint, a: Row, b: Row) {
    && KeyOf(rules, table, uq, a).Some?
    && KeyOf(rules, table, uq, a) == KeyOf(rules, table, uq, b)
    && rules.pk(table, a) != rules.pk(table, b)
  }

  /** The guards of the rows, one for each key. */
  ghost predicate GuardsOf(rules: Rules, table: string, uq: UniqueConstraint, rows: seq<Row>, guards: map<string, Owner>) {
    && (forall row :: row in rows && KeyOf(rules, table, uq, row).Some? ==>
          var k := KeyOf(rules, table, uq, row).value;
          k in guards && guards[k] == OwnerOf(rules, table, uq, row))
    && (forall k :: k in guards ==> exists row :: row in rows && KeyOf(rules, table, uq, row) == Some(k))
  }

  /** The first loop of `backfill_unique`: the owner of each key, or a violation. */
  method CollectKeys(rules: Rules, table: string, uq: UniqueConstraint, rows: seq<Row>) returns (seen: Option<map<string, Owner>>)
    ensures seen.None? <==> Clash(rules, table, uq, rows)
    ensures seen.Some? ==> GuardsOf(rules, table, uq, rows, seen.value)
  {
    var found: map<string, Owner> := map[];
    var i := 0;
    while i < |rows|
      invariant 0 <= i <= |rows|
      invariant GuardsOf(rules, table, uq, rows[..i], found)
    {
      var row := rows[i];
      assert rows[..i + 1] == rows[..i] + [row];
      var key := KeyOf(rules, table, uq, row);
      if key.Some? {
        var owner := OwnerOf(rules, table, uq, row);
        if key.value in found {
          if found[key.value].row.pk != owner.row.pk {
            var other :| other in rows[..i] && KeyOf(rules, table, uq, other) == Some(key.value);
            assert other in rows && row in rows && Clashing(rules, table, uq, other, row);
            return None;
          }
        } else {
          found := found[key.value := owner];
        }
      }
      i := i + 1;
    }
    assert rows[..|rows|] == rows;
    NoClash(rules, table, uq, rows, found);
    return Some(found);
  }

  lemma NoClash(rules: Rules, table: string, uq: UniqueConstraint, rows: seq<Row>, guards: map<string, Owner>)
    requires GuardsOf(rules, table, uq, rows, guards)
    ensures !Clash(rules, table, uq, rows)
  {
    forall a, b | a in rows && b in rows ensures !Clashing(rules, table, uq, a, b) {
      if KeyOf(rules, table, uq, a).Some? && KeyOf(rules, table, uq, a) == KeyOf(rules, table, uq, b) {
        var k := KeyOf(rules, table, uq, a).value;
        assert guards[k] == OwnerOf(rules, table, uq, a) == OwnerOf(rules, table, uq, b);
      }
    }
  }

  /** `backfill_unique`: refuses exactly when two rows clash; otherwise puts the guards that
      are not there yet. */
  method BackfillUnique(rules: Rules, table: string, uq: UniqueConstraint, rows: seq<Row>, owners: map<string, Owner>)
    returns (puts: Option<map<string, Owner>>)
    ensures puts.None? <==> Clash(rules, table, uq, rows)
    ensures puts.Some? ==>
              && puts.value.Keys !! owners.Keys
              && exists guards :: GuardsOf(rules, table, uq, rows, guards) && puts.value == guards - owners.Keys
  {
    var seen := CollectKeys(rules, table, uq, rows);
    if seen.None? {
      return None;
    }
    return Some(seen.value - owners.Keys);
  }

  /** A second backfill finds every guard in place and puts nothing. */
  lemma BackfillTwice(rules: Rules, table: string, uq: UniqueConstraint, rows: seq<Row>, owners: map<string, Owner>,
                      guards: map<string, Owner>, again: map<string, Owner>)
    requires GuardsOf(rules, table, uq, rows, guards) && GuardsOf(rules, table, uq, rows, again)
    ensures again - (owners + (guards - owners.Keys)).Keys == map[]
  {
    forall k | k in again ensures k in guards {
      var row :| row in rows && KeyOf(rules, table, uq, row) == Some(k);
    }
    assert (again - (owners + (guards - owners.Keys)).Keys).Keys == {};
  }

  // ── what the protocol gains ──────────────────────────────────────────────

  /** `after` is `before` with the constraint added to the table. */
  ghost predicate AddsUnique(before: Rules, after: Rules, table: string, uq: UniqueConstraint) {
    && after.KeysApart()
    && (forall t, row :: after.pk(t, row) == before.pk(t, row))
    && (forall t, row :: before.valid(t, row) ==> after.valid(t, row))
    && (forall t, row, fk, p :: after.References(t, row, fk, p) <==> before.References(t, row, fk, p))
    && (forall t, row, c, k :: after.HasKey(t, row, c, k) <==>
          before.HasKey(t, row, c, k) || (t == table && c == uq.name && KeyOf(before, table, uq, row) == Some(k)))
    && (forall row, k :: !before.HasKey(table, row, uq.name, k))
  }

  /** The rows of a table, as the backfill scans them. */
  ghost predicate ScansTable(s: Store, table: string, rows: seq<Row>) {
    forall row :: row in rows <==> exists r :: r in s.rows && r.table == table && s.rows[r] == row
  }

  /** The guards it puts make the store sound for the new constraint as well. */
  lemma BackfillMakesSound(before: Rules, after: Rules, table: string, uq: UniqueConstraint, s: Store, rows: seq<Row>,
                           guards: map<string, Owner>)
    requires Sound(before, s) && AddsUnique(before, after, table, uq) && ScansTable(s, table, rows)
    requires GuardsOf(before, table, uq, rows, guards)
    ensures guards.Keys !! s.owners.Keys
    ensures Sound(after, s.(owners := s.owners + guards))
  {
    var t := s.(owners := s.owners + guards);
    forall k | k in s.owners ensures after.HasKey(s.owners[k].row.table, s.rows[s.owners[k].row], s.owners[k].constraint, k) {
      assert before.HasKey(s.owners[k].row.table, s.rows[s.owners[k].row], s.owners[k].constraint, k);
    }
    forall k | k in guards ensures k !in s.owners {
      var row :| row in rows && KeyOf(before, table, uq, row) == Some(k);
      assert after.HasKey(table, row, uq.name, k);
    }
    GuardsOwned(before, after, table, uq, s, rows, guards);
    GuardsNotStale(before, after, table, uq, s, rows, guards);
    forall r, fk, p | r in t.rows && after.References(r.table, t.rows[r], fk, p) ensures p in t.rows {
      assert before.References(r.table, s.rows[r], fk, p);
    }
  }

  lemma GuardsOwned(before: Rules, after: Rules, table: string, uq: UniqueConstraint, s: Store, rows: seq<Row>, guards: map<string, Owner>)
    requires Sound(before, s) && AddsUnique(before, after, table, uq) && ScansTable(s, table, rows)
    requires GuardsOf(before, table, uq, rows, guards) && guards.Keys !! s.owners.Keys
    ensures Owned(after, s.(owners := s.owners + guards))
  {
    var t := s.(owners := s.owners + guards);
    forall r, c, k | r in t.rows && after.HasKey(r.table, t.rows[r], c, k) ensures k in t.owners && t.owners[k] == Owner(c, r) {
      if before.HasKey(r.table, s.rows[r], c, k) {
        assert k in s.owners && s.owners[k] == Owner(c, r);
      } else {
        assert s.rows[r] in rows;
        assert guards[k] == OwnerOf(before, table, uq, s.rows[r]);
      }
    }
  }

  lemma GuardsNotStale(before: Rules, after: Rules, table: string, uq: UniqueConstraint, s: Store, rows: seq<Row>, guards: map<string, Owner>)
    requires Sound(before, s) && AddsUnique(before, after, table, uq) && ScansTable(s, table, rows)
    requires GuardsOf(before, table, uq, rows, guards) && guards.Keys !! s.owners.Keys
    ensures NoStale(after, s.(owners := s.owners + guards))
  {
    var t := s.(owners := s.owners + guards);
    forall k | k in t.owners
      ensures var o := t.owners[k]; o.row in t.rows && after.HasKey(o.row.table, t.rows[o.row], o.constraint, k)
    {
      if k in guards {
        var row :| row in rows && KeyOf(before, table, uq, row) == Some(k);
        var r :| r in s.rows && r.table == table && s.rows[r] == row;
        assert guards[k] == OwnerOf(before, table, uq, row) == Owner(uq.name, r);
      } else {
        assert before.HasKey(s.owners[k].row.table, s.rows[s.owners[k].row], s.owners[k].constraint, k);
      }
    }
  }

  /** When the backfill refuses, no guards could have made the rows sound. */
  lemma ClashCannotBeSound(before: Rules, after: Rules, table: string, uq: UniqueConstraint, s: Store, rows: seq<Row>)
    requires AddsUnique(before, after, table, uq) && UnderPk(before, s) && ScansTable(s, table, rows)
    requires Clash(before, table, uq, rows)
    ensures !Owned(after, s)
  {
    var a, b :| a in rows && b in rows && Clashing(before, table, uq, a, b);
    var r :| r in s.rows && r.table == table && s.rows[r] == a;
    var q :| q in s.rows && q.table == table && s.rows[q] == b;
    var k := KeyOf(before, table, uq, a).value;
    assert after.HasKey(table, s.rows[r], uq.name, k) && after.HasKey(table, s.rows[q], uq.name, k);
    assert r != q;
  }

  // ── foreign keys ─────────────────────────────────────────────────────────

  /** A row whose foreign key points at no row of the parent table. */
  ghost predicate Orphan(rules: Rules, fk: ForeignKey, rows: seq<Row>, parents: set<string>) {
    exists row :: row in rows && rules.parent(fk, row).Some? && rules.parent(fk, row).value !in parents
  }

  /** `backfill_foreign_key`: refuses exactly when some row is an orphan; otherwise touches the
      guard of every referenced parent once. */
  method BackfillForeignKey(rules: Rules, fk: ForeignKey, rows: seq<Row>, parents: set<string>) returns (touched: Option<seq<RowRef>>)
    ensures touched.None? <==> Orphan(rules, fk, rows, parents)
    ensures touched.Some? ==>
              && (forall p :: p in touched.value <==>
                    p.table == fk.referencesTable && exists row :: row in rows && rules.parent(fk, row) == Some(p.pk))
              && (forall i, j :: 0 <= i < j < |touched.value| ==> touched.value[i] != touched.value[j])
  {
    var seen: set<string> := {};
    var toTouch: seq<RowRef> := [];
    var i := 0;
    while i < |rows|
      invariant 0 <= i <= |rows|
      invariant !Orphan(rules, fk, rows[..i], parents)
      invariant forall p :: p in toTouch <==> p.table == fk.referencesTable && p.pk in seen
      invariant forall q :: q in seen <==> exists row :: row in rows[..i] && rules.parent(fk, row) == Some(q)
      invariant forall j, k :: 0 <= j < k < |toTouch| ==> toTouch[j] != toTouch[k]
    {
      assert rows[..i + 1] == rows[..i] + [rows[i]];
      var parent := rules.parent(fk, rows[i]);
      if parent.Some? {
        if parent.value !in parents {
          assert rows[i] in rows;
          return None;
        }
        if parent.value !in seen {
          seen := seen + {parent.value};
          toTouch := toTouch + [RowRef(fk.referencesTable, parent.value)];
        }
      }
      i := i + 1;
    }
    assert rows[..|rows|] == rows;
    return Some(toTouch);
  }
}
