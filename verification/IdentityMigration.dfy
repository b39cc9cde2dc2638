/**
 The upgrade of the `auth_identities` table from uniqueness of (provider, subject) to uniqueness of (provider, issuer,
 subject): added columns, filled values, and, where a legacy unique index exists, a rebuilt table, in one transaction.
 */
module IdentityMigration {
  import opened Options
  import opened Sequences
  import opened Text

  datatype Column =
    | Id | AccountId | Provider | Issuer | Subject | State | LinkedAt | LastVerifiedAt | CreatedAt | UpdatedAt
    | Unknown(name: string)

  type Cell = Option<string>

  /** A row of any legacy shape; a column that the table does not have holds None. */
  datatype Row = Row(rowid: nat, id: Cell, accountId: Cell, provider: Cell, issuer: Cell, subject: Cell, state: Cell,
                     linkedAt: Cell, lastVerifiedAt: Cell, createdAt: Cell, updatedAt: Cell)

  datatype IndexName = ByAccount | ByAccountProvider | ByIssuerSubject | UniqueTriple | Auto(n: nat) | User(name: string)

  /** `sql` is None for an index that SQLite made for a constraint. */
  datatype Index = Index(name: IndexName, unique: bool, partial: bool, columns: seq<Column>, sql: Option<string>)

  /** A row of another table that refers to an identity. */
  datatype Child = Child(table: nat, rowid: nat, fkid: nat, ref: string)

  datatype Db = Db(
    hasIdentities: bool, hasAccounts: bool, hasStale: bool,   // the tables: auth_identities, accounts, the interim one
    columns: set<Column>,
    rows: seq<Row>,              // in rowid order
    indexes: seq<Index>,
    triggers: map<string, string>,   // the statement of each trigger on auth_identities, by its name
    accountFk: Option<nat>,      // the id of the foreign key from account_id to accounts, if there is one
    accounts: set<string>,
    children: seq<Child>
  )

  // ---------------------------------------------------------------- foreign keys

  datatype Violation = OfAccount(rowid: nat, fkid: nat) | OfChild(child: Child)

  predicate Dangling(db: Db, r: Row) {
    r.accountId.Some? && r.accountId.value !in db.accounts
  }

  predicate HasId(rows: seq<Row>, id: string) {
    exists i :: 0 <= i < |rows| && rows[i].id == Some(id)
  }

  predicate DanglingAt(db: Db, rowid: nat) {
    exists i :: 0 <= i < |db.rows| && db.rows[i].rowid == rowid && Dangling(db, db.rows[i])
  }

  /** `PRAGMA foreign_key_check` lists the violation. */
  predicate Violates(db: Db, v: Violation) {
    match v
    case OfAccount(rowid, fkid) => db.accountFk == Some(fkid) && DanglingAt(db, rowid)
    case OfChild(child) => child in db.children && !HasId(db.rows, child.ref)
  }

  /** The violations listed after the upgrade were all listed before. */
  predicate NothingNew(before: Db, after: Db) {
    && (after.accountFk.Some? ==>
          forall i :: 0 <= i < |after.rows| && Dangling(after, after.rows[i]) ==>
            Violates(before, OfAccount(after.rows[i].rowid, after.accountFk.value)))
    && forall i :: 0 <= i < |after.children| && !HasId(after.rows, after.children[i].ref) ==>
         Violates(before, OfChild(after.children[i]))
  }

  lemma NothingNewIff(before: Db, after: Db)
    ensures NothingNew(before, after) <==> forall v :: Violates(after, v) ==> Violates(before, v)
  {
    if NothingNew(before, after) {
      forall v | Violates(after, v) ensures Violates(before, v) {
        match v
        case OfAccount(rowid, fkid) =>
          var i :| 0 <= i < |after.rows| && after.rows[i].rowid == rowid && Dangling(after, after.rows[i]);
        case OfChild(child) =>
          var i :| 0 <= i < |after.children| && after.children[i] == child;
      }
    } else if forall v :: Violates(after, v) ==> Violates(before, v) {
      forall i | 0 <= i < |after.rows| && Dangling(after, after.rows[i]) && after.accountFk.Some?
        ensures Violates(before, OfAccount(after.rows[i].rowid, after.accountFk.value))
      {
        assert DanglingAt(after, after.rows[i].rowid);
        assert Violates(after, OfAccount(after.rows[i].rowid, after.accountFk.value));
      }
      forall i | 0 <= i < |after.children| && !HasId(after.rows, after.children[i].ref)
        ensures Violates(before, OfChild(after.children[i]))
      {
        assert Violates(after, OfChild(after.children[i]));
      }
    }
  }

  // ---------------------------------------------------------------- filling in the new columns

  const CANONICAL_COLUMNS: set<Column> :=
    {Id, AccountId, Provider, Issuer, Subject, State, LinkedAt, LastVerifiedAt, CreatedAt, UpdatedAt}
  const REQUIRED_COLUMNS: set<Column> := {Id, AccountId, Provider, Subject, CreatedAt, UpdatedAt}

  /** A local row, and one with no provider, keeps the default; the others get a namespace of their own. */
  function LegacyIssuer(provider: Cell): string {
    if provider.Some? && Lower(provider.value) != "local" then "legacy:" + Lower(provider.value) else "restia-local"
  }

  function Coalesce(a: Cell, b: Cell, otherwise: string): Cell {
    if a.Some? then a else if b.Some? then b else Some(otherwise)
  }

  function Filled(columns: set<Column>, r: Row, now: string): Row {
    r.(issuer := if Issuer in columns then r.issuer else Some(LegacyIssuer(r.provider)),
       state := if State in columns then r.state else Some("active"),
       linkedAt := Coalesce(if LinkedAt in columns then r.linkedAt else None, r.createdAt, now),
       lastVerifiedAt := if LastVerifiedAt in columns then r.lastVerifiedAt else None)
  }

  function FilledRows(columns: set<Column>, rows: seq<Row>, now: string): (r: seq<Row>)
    ensures |r| == |rows| && forall i :: 0 <= i < |r| ==> r[i] == Filled(columns, rows[i], now)
  {
    seq(|rows|, i requires 0 <= i < |rows| => Filled(columns, rows[i], now))
  }

  // ---------------------------------------------------------------- indexes

  predicate IsLegacy(ix: Index) {
    ix.unique && |ix.columns| == 2 && Elements(ix.columns) == {Provider, Subject}
  }

  predicate IsTriple(ix: Index) {
    ix.unique && |ix.columns| == 3 && Elements(ix.columns) == {Provider, Issuer, Subject}
  }

  predicate HasLegacy(indexes: seq<Index>) {
    exists i :: 0 <= i < |indexes| && IsLegacy(indexes[i])
  }

  /** A partial index does not count. */
  predicate HasTriple(indexes: seq<Index>) {
    exists i :: 0 <= i < |indexes| && IsTriple(indexes[i]) && !indexes[i].partial
  }

  predicate HasName(indexes: seq<Index>, name: IndexName) {
    exists i :: 0 <= i < |indexes| && indexes[i].name == name
  }

  predicate IsCanonicalName(name: IndexName) {
    name in {ByAccount, ByAccountProvider, ByIssuerSubject}
  }

  function CanonicalColumns(name: IndexName): seq<Column>
    requires IsCanonicalName(name)
  {
    match name
    case ByAccount => [AccountId]
    case ByAccountProvider => [AccountId, Provider]
    case ByIssuerSubject => [Issuer, Subject]
  }

  /** An index that bears a canonical name has the canonical definition. */
  predicate AsExpected(ix: Index) {
    IsCanonicalName(ix.name) ==> !ix.unique && ix.columns == CanonicalColumns(ix.name)
  }

  function CanonicalIndex(name: IndexName): Index
    requires IsCanonicalName(name)
  {
    Index(name, false, false, CanonicalColumns(name), Some("CREATE INDEX"))
  }

  const CANONICAL: seq<IndexName> := [ByAccount, ByAccountProvider, ByIssuerSubject]

  /** Recreated from its statement after a rebuild; an index without a statement goes with the old table. */
  predicate IsPreserved(ix: Index) {
    !IsLegacy(ix) && !IsTriple(ix) && !IsCanonicalName(ix.name) && ix.sql.Some?
  }

  function Preserved(indexes: seq<Index>): (r: seq<Index>)
    ensures forall ix :: ix in r <==> ix in indexes && IsPreserved(ix)
  {
    if indexes == [] then []
    else
      var n := |indexes| - 1;
      Preserved(indexes[..n]) + if IsPreserved(indexes[n]) then [indexes[n]] else []
  }

  const PRIMARY := Index(Auto(1), true, false, [Id], None)
  const TRIPLE_CONSTRAINT := Index(Auto(2), true, false, [Provider, Issuer, Subject], None)
  const TRIPLE_INDEX := Index(UniqueTriple, true, false, [Provider, Issuer, Subject], Some("CREATE UNIQUE INDEX"))

  function CanonicalIndexes(): seq<Index> {
    [CanonicalIndex(ByAccount), CanonicalIndex(ByAccountProvider), CanonicalIndex(ByIssuerSubject)]
  }

  function RebuiltIndexes(indexes: seq<Index>): seq<Index> {
    [PRIMARY, TRIPLE_CONSTRAINT] + CanonicalIndexes() + Preserved(indexes)
  }

  /** `CREATE INDEX IF NOT EXISTS`. */
  function WithIndex(indexes: seq<Index>, name: IndexName): seq<Index>
    requires IsCanonicalName(name)
  {
    if HasName(indexes, name) then indexes else indexes + [CanonicalIndex(name)]
  }

  function AddedIndexes(indexes: seq<Index>): seq<Index> {
    var some := if HasTriple(indexes) then indexes else indexes + [TRIPLE_INDEX];
    WithIndex(WithIndex(WithIndex(some, ByAccount), ByAccountProvider), ByIssuerSubject)
  }

  // ---------------------------------------------------------------- what the engine checks

  predicate SameTriple(a: Row, b: Row) {
    && a.provider.Some? && a.issuer.Some? && a.subject.Some?
    && a.provider == b.provider && a.issuer == b.issuer && a.subject == b.subject
  }

  /** Rows with a NULL in the key never clash. */
  predicate TriplesUnique(rows: seq<Row>) {
    forall i, j :: 0 <= i < j < |rows| ==> !SameTriple(rows[i], rows[j])
  }

  predicate IdsUnique(rows: seq<Row>) {
    forall i, j :: 0 <= i < j < |rows| && rows[i].id.Some? ==> rows[i].id != rows[j].id
  }

  /** NOT NULL and the check on the state. */
  predicate Complete(r: Row) {
    && r.id.Some? && r.accountId.Some? && r.provider.Some? && r.issuer.Some? && r.subject.Some? && r.linkedAt.Some?
    && r.createdAt.Some? && r.updatedAt.Some? && r.state in {Some("active"), Some("disabled"), Some("unlinked")}
  }

  predicate Copyable(rows: seq<Row>) {
    (forall i :: 0 <= i < |rows| ==> Complete(rows[i])) && IdsUnique(rows) && TriplesUnique(rows)
  }

  /** The rows are copied in rowid order into an empty table, which numbers them from 1. */
  function Renumbered(rows: seq<Row>): (r: seq<Row>)
    ensures |r| == |rows| && forall i :: 0 <= i < |r| ==> r[i] == rows[i].(rowid := i + 1)
  {
    seq(|rows|, i requires 0 <= i < |rows| => rows[i].(rowid := i + 1))
  }

  // ---------------------------------------------------------------- the upgrade

  /** Raises before anything is written. */
  predicate Upgradable(db: Db) {
    && db.hasIdentities && db.hasAccounts && !db.hasStale
    && REQUIRED_COLUMNS <= db.columns <= CANONICAL_COLUMNS
    && forall i :: 0 <= i < |db.indexes| ==> AsExpected(db.indexes[i])
  }

  function WithColumns(db: Db, now: string): Db {
    db.(columns := CANONICAL_COLUMNS, rows := FilledRows(db.columns, db.rows, now))
  }

  function Rebuilt(db: Db): Db {
    db.(rows := Renumbered(db.rows), indexes := RebuiltIndexes(db.indexes), accountFk := Some(0))
  }

  /** The result of a run in which the engine refuses no statement for a reason outside this model. */
  function Upgrade(db: Db, now: string): Result<Db, ()> {
    if !Upgradable(db) then Err(())
    else
      var filled := WithColumns(db, now);
      if HasLegacy(db.indexes) then
        if !Copyable(filled.rows) || !NothingNew(db, Rebuilt(filled)) then Err(()) else Ok(Rebuilt(filled))
      else
        if !HasTriple(db.indexes) && (HasName(db.indexes, UniqueTriple) || !TriplesUnique(filled.rows)) then Err(())
        else
          var after := filled.(indexes := AddedIndexes(db.indexes));
          if !NothingNew(db, after) then Err(()) else Ok(after)
  }

  // ---------------------------------------------------------------- what an upgrade keeps

  /** A column that existed keeps its value, except that an absent `linked_at` is filled in. */
  predicate KeepsRow(columns: set<Column>, r: Row, r': Row) {
    && r'.id == r.id && r'.accountId == r.accountId && r'.provider == r.provider && r'.subject == r.subject
    && r'.createdAt == r.createdAt && r'.updatedAt == r.updatedAt
    && (Issuer in columns ==> r'.issuer == r.issuer)
    && (State in columns ==> r'.state == r.state)
    && (LastVerifiedAt in columns ==> r'.lastVerifiedAt == r.lastVerifiedAt)
    && (LinkedAt in columns && r.linkedAt.Some? ==> r'.linkedAt == r.linkedAt)
  }

  /** No row is lost, added, reordered or changed in a column that existed. */
  lemma UpgradeKeepsRows(db: Db, now: string)
    requires Upgrade(db, now).Ok?
    ensures var after := Upgrade(db, now).value;
            && |after.rows| == |db.rows|
            && forall i :: 0 <= i < |db.rows| ==> KeepsRow(db.columns, db.rows[i], after.rows[i])
  {
  }

  /** What the missing values become: an issuer of its own for each old provider but the local one, and dates that hold. */
  lemma UpgradeFills(db: Db, now: string, i: nat)
    requires Upgrade(db, now).Ok? && i < |db.rows|
    ensures var r, r' := db.rows[i], Upgrade(db, now).value.rows[i];
            && (Issuer !in db.columns ==>
                  r'.issuer == Some(if r.provider.None? || Lower(r.provider.value) == "local" then "restia-local"
                                    else "legacy:" + Lower(r.provider.value)))
            && (State !in db.columns ==> r'.state == Some("active"))
            && (LastVerifiedAt !in db.columns ==> r'.lastVerifiedAt == None)
            && (LinkedAt !in db.columns || r.linkedAt.None? ==>
                  r'.linkedAt == if r.createdAt.Some? then r.createdAt else Some(now))
  {
  }

  /** No foreign key is violated that was not violated before. */
  lemma UpgradeAddsNoViolation(db: Db, now: string, v: Violation)
    requires Upgrade(db, now).Ok? && Violates(Upgrade(db, now).value, v)
    ensures Violates(db, v)
  {
    NothingNewIff(db, Upgrade(db, now).value);
  }

  lemma AddedIndexesAre(indexes: seq<Index>)
    requires !HasLegacy(indexes) && forall i :: 0 <= i < |indexes| ==> AsExpected(indexes[i])
    ensures var r := AddedIndexes(indexes);
            && !HasLegacy(r) && HasTriple(r) && (forall i :: 0 <= i < |r| ==> AsExpected(r[i]))
            && (forall ix :: ix in indexes ==> ix in r)
            && HasName(r, ByAccount) && HasName(r, ByAccountProvider) && HasName(r, ByIssuerSubject)
  {
    var some := if HasTriple(indexes) then indexes else indexes + [TRIPLE_INDEX];
    TripleIsNotLegacy();
    assert HasTriple(some) by {
      if !HasTriple(indexes) { assert some[|indexes|] == TRIPLE_INDEX; }
    }
    WithIndexIs(some, ByAccount);
    var one := WithIndex(some, ByAccount);
    WithIndexIs(one, ByAccountProvider);
    var two := WithIndex(one, ByAccountProvider);
    WithIndexIs(two, ByIssuerSubject);
  }

  lemma TripleIsNotLegacy()
    ensures IsTriple(TRIPLE_INDEX) && !IsLegacy(TRIPLE_INDEX) && IsTriple(TRIPLE_CONSTRAINT) && !IsLegacy(TRIPLE_CONSTRAINT)
    ensures !IsLegacy(PRIMARY)
  {
    assert Elements(TRIPLE_INDEX.columns) == {Provider, Issuer, Subject} by {
      assert TRIPLE_INDEX.columns[0] == Provider && TRIPLE_INDEX.columns[1] == Issuer && TRIPLE_INDEX.columns[2] == Subject;
    }
    assert TRIPLE_CONSTRAINT.columns == TRIPLE_INDEX.columns;
  }

  lemma WithIndexIs(indexes: seq<Index>, name: IndexName)
    requires IsCanonicalName(name) && !HasLegacy(indexes) && HasTriple(indexes)
    requires forall i :: 0 <= i < |indexes| ==> AsExpected(indexes[i])
    ensures var r := WithIndex(indexes, name);
            && !HasLegacy(r) && HasTriple(r) && (forall i :: 0 <= i < |r| ==> AsExpected(r[i]))
            && indexes <= r && HasName(r, name)
            && forall other :: HasName(indexes, other) ==> HasName(r, other)
  {
    var r := WithIndex(indexes, name);
    var t :| 0 <= t < |indexes| && IsTriple(indexes[t]) && !indexes[t].partial;
    assert r[t] == indexes[t];
    if !HasName(indexes, name) {
      assert r[|indexes|].name == name;
    }
    forall other | HasName(indexes, other) ensures HasName(r, other) {
      var i :| 0 <= i < |indexes| && indexes[i].name == other;
      assert r[i].name == other;
    }
  }

  lemma RebuiltIndexesAre(indexes: seq<Index>)
    ensures var r := RebuiltIndexes(indexes);
            && !HasLegacy(r) && HasTriple(r) && (forall i :: 0 <= i < |r| ==> AsExpected(r[i]))
            && (forall ix :: ix in indexes && IsPreserved(ix) ==> ix in r)
            && HasName(r, ByAccount) && HasName(r, ByAccountProvider) && HasName(r, ByIssuerSubject)
  {
    var r := RebuiltIndexes(indexes);
    TripleIsNotLegacy();
    assert r[1] == TRIPLE_CONSTRAINT;
    assert r[2].name == ByAccount && r[3].name == ByAccountProvider && r[4].name == ByIssuerSubject;
    forall i | 0 <= i < |r| ensures !IsLegacy(r[i]) && AsExpected(r[i]) {
      if i >= 5 { assert r[i] in Preserved(indexes); }
    }
  }

  /** An index stays when the table is not rebuilt, and otherwise when it is recreated or the new table has it anyway. */
  lemma RebuildKeepsIndexIff(indexes: seq<Index>, ix: Index)
    requires ix in indexes && !IsCanonicalName(ix.name)
    ensures ix in RebuiltIndexes(indexes) <==> IsPreserved(ix) || ix == PRIMARY || ix == TRIPLE_CONSTRAINT
  {
    var made := [PRIMARY, TRIPLE_CONSTRAINT] + CanonicalIndexes();
    assert made[0] == PRIMARY && made[1] == TRIPLE_CONSTRAINT;
    assert ix in RebuiltIndexes(indexes) <==> ix in made || ix in Preserved(indexes);
  }

  /** The new schema in SQLite's terms: which indexes over the key there are, and the three with a fixed definition. */
  lemma UpgradedSchemaIs(db: Db, now: string)
    requires Upgrade(db, now).Ok?
    ensures var after := Upgrade(db, now).value;
            && after.columns == {Id, AccountId, Provider, Issuer, Subject, State, LinkedAt, LastVerifiedAt, CreatedAt, UpdatedAt}
            && (forall ix :: ix in after.indexes && ix.unique ==> ix.columns != [Provider, Subject] && ix.columns != [Subject, Provider])
            && (exists ix :: ix in after.indexes && ix.unique && !ix.partial && |ix.columns| == 3
                             && Provider in ix.columns && Issuer in ix.columns && Subject in ix.columns)
            && (forall ix :: ix in after.indexes ==> NamedAsExpected(ix))
            && (exists ix :: ix in after.indexes && ix.name == ByAccount)
            && (exists ix :: ix in after.indexes && ix.name == ByAccountProvider)
            && (exists ix :: ix in after.indexes && ix.name == ByIssuerSubject)
  {
    var after := Upgrade(db, now).value;
    if HasLegacy(db.indexes) { RebuiltIndexesAre(db.indexes); } else { AddedIndexesAre(db.indexes); }
    forall ix | ix in after.indexes ensures NamedAsExpected(ix) && !IsLegacy(ix) {
      var i :| 0 <= i < |after.indexes| && after.indexes[i] == ix;
      assert AsExpected(after.indexes[i]);
    }
    forall ix | ix in after.indexes && ix.unique ensures ix.columns != [Provider, Subject] && ix.columns != [Subject, Provider] {
      BothOrders();
    }
    var t :| 0 <= t < |after.indexes| && IsTriple(after.indexes[t]) && !after.indexes[t].partial;
    assert after.indexes[t] in after.indexes;
    assert Provider in Elements(after.indexes[t].columns) && Issuer in Elements(after.indexes[t].columns)
        && Subject in Elements(after.indexes[t].columns);
    NamedIn(after.indexes, ByAccount);
    NamedIn(after.indexes, ByAccountProvider);
    NamedIn(after.indexes, ByIssuerSubject);
  }

  lemma NamedIn(indexes: seq<Index>, name: IndexName)
    requires HasName(indexes, name)
    ensures exists ix :: ix in indexes && ix.name == name
  {
    var i :| 0 <= i < |indexes| && indexes[i].name == name;
    assert indexes[i] in indexes;
  }

  lemma BothOrders()
    ensures Elements([Provider, Subject]) == {Provider, Subject} == Elements([Subject, Provider])
  {
    assert [Provider, Subject][0] == Provider && [Provider, Subject][1] == Subject;
    assert [Subject, Provider][0] == Subject && [Subject, Provider][1] == Provider;
  }

  /**
   Which indexes an upgrade drops: none without a rebuild.  A rebuild keeps one created under another name exactly when
   it is unique over neither key, and one made for a constraint exactly when the new table has the same.
   */
  lemma UpgradeKeepsIndexIff(db: Db, now: string, ix: Index)
    requires Upgrade(db, now).Ok? && ix in db.indexes && !IsCanonicalName(ix.name)
    ensures var kept := ix in Upgrade(db, now).value.indexes;
            && (!HasLegacy(db.indexes) ==> kept)
            && (HasLegacy(db.indexes) && ix.sql.Some? ==> (kept <==> !IsLegacy(ix) && !IsTriple(ix)))
            && (HasLegacy(db.indexes) && ix.sql.None? ==> (kept <==> ix == PRIMARY || ix == TRIPLE_CONSTRAINT))
  {
    if HasLegacy(db.indexes) {
      RebuildKeepsIndexIff(db.indexes, ix);
    } else {
      AddedIndexesAre(db.indexes);
    }
  }

  /** A partial unique index over the three key columns goes with the old table, although it limits only some rows. */
  lemma PartialIndexIsDropped(db: Db, now: string, name: string, sql: string)
    requires Upgrade(db, now).Ok? && HasLegacy(db.indexes)
    requires Index(User(name), true, true, [Provider, Issuer, Subject], Some(sql)) in db.indexes
    ensures Index(User(name), true, true, [Provider, Issuer, Subject], Some(sql)) !in Upgrade(db, now).value.indexes
  {
    TripleIsNotLegacy();
    UpgradeKeepsIndexIff(db, now, Index(User(name), true, true, [Provider, Issuer, Subject], Some(sql)));
  }

  /** SQLite enforces the unique indexes there are. */
  predicate Enforced(db: Db) {
    HasTriple(db.indexes) ==> Issuer in db.columns && TriplesUnique(db.rows)
  }

  lemma FilledTriplesUnique(columns: set<Column>, rows: seq<Row>, now: string)
    requires Issuer in columns && TriplesUnique(rows)
    ensures TriplesUnique(FilledRows(columns, rows, now))
  {
    var r := FilledRows(columns, rows, now);
    forall i, j | 0 <= i < j < |rows| ensures !SameTriple(r[i], r[j]) {
      assert !SameTriple(rows[i], rows[j]);
    }
  }

  /**
   An upgrade replaces the old uniqueness by the new one, in the schema and in the rows, and keeps the other indexes
   that somebody created, the triggers and the canonical indexes.
   */
  lemma UpgradeMovesUniqueness(db: Db, now: string)
    requires Upgrade(db, now).Ok? && Enforced(db)
    ensures var after := Upgrade(db, now).value;
            && !HasLegacy(after.indexes) && HasTriple(after.indexes) && TriplesUnique(after.rows)
            && (forall ix :: ix in db.indexes && IsPreserved(ix) ==> ix in after.indexes)
            && (forall name :: IsCanonicalName(name) ==> HasName(after.indexes, name))
            && after.triggers == db.triggers && after.children == db.children
  {
    var filled := WithColumns(db, now);
    if HasLegacy(db.indexes) {
      RebuiltIndexesAre(db.indexes);
      forall i, j | 0 <= i < j < |db.rows| ensures !SameTriple(Renumbered(filled.rows)[i], Renumbered(filled.rows)[j]) {
        assert !SameTriple(filled.rows[i], filled.rows[j]);
      }
    } else {
      AddedIndexesAre(db.indexes);
      if HasTriple(db.indexes) {
        FilledTriplesUnique(db.columns, db.rows, now);
      }
    }
  }

  /** What an upgrade leaves behind: nothing more to do. */
  predicate Done(db: Db) {
    && Upgradable(db) && db.columns == CANONICAL_COLUMNS && !HasLegacy(db.indexes) && HasTriple(db.indexes)
    && HasName(db.indexes, ByAccount) && HasName(db.indexes, ByAccountProvider) && HasName(db.indexes, ByIssuerSubject)
    && forall i :: 0 <= i < |db.rows| ==> db.rows[i].linkedAt.Some?
  }

  lemma UpgradeIsDone(db: Db, now: string)
    requires Upgrade(db, now).Ok?
    ensures Done(Upgrade(db, now).value)
  {
    if HasLegacy(db.indexes) {
      RebuiltIndexesAre(db.indexes);
    } else {
      AddedIndexesAre(db.indexes);
    }
  }

  lemma DoneStays(db: Db, now: string)
    requires Done(db)
    ensures Upgrade(db, now) == Ok(db)
  {
    forall i | 0 <= i < |db.rows| ensures FilledRows(db.columns, db.rows, now)[i] == db.rows[i] {}
    assert FilledRows(db.columns, db.rows, now) == db.rows;
    assert WithColumns(db, now) == db;
    assert AddedIndexes(db.indexes) == db.indexes;
    NothingNewIff(db, db);
  }

  /** Upgrading again, at any later time, changes nothing. */
  lemma UpgradeIdempotent(db: Db, now: string, later: string)
    requires Upgrade(db, now).Ok?
    ensures Upgrade(Upgrade(db, now).value, later) == Upgrade(db, now)
  {
    UpgradeIsDone(db, now);
    DoneStays(Upgrade(db, now).value, later);
  }

  // ---------------------------------------------------------------- when it succeeds

  predicate RowidOrder(rows: seq<Row>) {
    && (forall i :: 0 <= i < |rows| ==> rows[i].rowid >= 1)
    && forall i, j :: 0 <= i < j < |rows| ==> rows[i].rowid < rows[j].rowid
  }

  lemma RowidAtLeast(rows: seq<Row>, i: nat)
    requires RowidOrder(rows) && i < |rows|
    ensures rows[i].rowid >= i + 1
  {
    if i > 0 {
      RowidAtLeast(rows, i - 1);
    }
  }

  /** Where every dangling row has a dangling row at its new number, dangling rows keep their numbers. */
  lemma {:induction false} NoGapBefore(db: Db, i: nat)
    requires RowidOrder(db.rows) && i < |db.rows| && Dangling(db, db.rows[i])
    requires forall k :: 0 <= k < |db.rows| && Dangling(db, db.rows[k]) ==> DanglingAt(db, k + 1)
    ensures db.rows[i].rowid == i + 1
  {
    RowidAtLeast(db.rows, i);
    var j :| 0 <= j < |db.rows| && db.rows[j].rowid == i + 1 && Dangling(db, db.rows[j]);
    if j < i {
      NoGapBefore(db, j);
    }
  }

  /**
   The check for new violations compares rowids, which the rebuild renumbers.  It passes exactly when each row whose
   account does not exist was already reported under the same key number and keeps its rowid, that is, when no rowid
   is unused before it.
   */
  lemma RebuildCheckIff(db: Db, now: string)
    requires RowidOrder(db.rows)
    ensures NothingNew(db, Rebuilt(WithColumns(db, now)))
            <==> forall i :: 0 <= i < |db.rows| && db.rows[i].accountId.Some? && db.rows[i].accountId.value !in db.accounts ==>
                   db.accountFk == Some(0) && db.rows[i].rowid == i + 1
  {
    var after := Rebuilt(WithColumns(db, now));
    assert forall i :: 0 <= i < |db.rows| ==> after.rows[i].rowid == i + 1 && after.rows[i].id == db.rows[i].id;
    assert forall i :: 0 <= i < |db.rows| ==> (Dangling(after, after.rows[i]) <==> Dangling(db, db.rows[i]));
    forall id ensures HasId(after.rows, id) <==> HasId(db.rows, id) {
      if HasId(db.rows, id) {
        var i :| 0 <= i < |db.rows| && db.rows[i].id == Some(id);
        assert after.rows[i].id == Some(id);
      }
    }
    if NothingNew(db, after) {
      forall i | 0 <= i < |db.rows| && Dangling(db, db.rows[i]) ensures db.accountFk == Some(0) && DanglingAt(db, i + 1) {
        assert Violates(db, OfAccount(after.rows[i].rowid, 0));
      }
      forall i | 0 <= i < |db.rows| && Dangling(db, db.rows[i]) ensures db.rows[i].rowid == i + 1 {
        NoGapBefore(db, i);
      }
    }
  }

  predicate PairsUnique(rows: seq<Row>) {
    forall i, j :: 0 <= i < j < |rows| && rows[i].provider.Some? && rows[i].subject.Some? ==>
      rows[i].provider != rows[j].provider || rows[i].subject != rows[j].subject
  }

  /** Both tables are there, no interim one, and the columns are as expected. */
  predicate HasTables(db: Db) {
    && db.hasIdentities && db.hasAccounts && !db.hasStale
    && {Id, AccountId, Provider, Subject, CreatedAt, UpdatedAt} <= db.columns
    && db.columns <= {Id, AccountId, Provider, Issuer, Subject, State, LinkedAt, LastVerifiedAt, CreatedAt, UpdatedAt}
  }

  /** An index under a canonical name has its columns and is not unique. */
  predicate NamedAsExpected(ix: Index) {
    && (ix.name == ByAccount ==> !ix.unique && ix.columns == [AccountId])
    && (ix.name == ByAccountProvider ==> !ix.unique && ix.columns == [AccountId, Provider])
    && (ix.name == ByIssuerSubject ==> !ix.unique && ix.columns == [Issuer, Subject])
  }

  /** No value that the new table asks for is missing, and the state is a known one. */
  predicate NothingMissing(columns: set<Column>, r: Row) {
    && r.id.Some? && r.accountId.Some? && r.provider.Some? && r.subject.Some? && r.createdAt.Some? && r.updatedAt.Some?
    && (Issuer in columns ==> r.issuer.Some?)
    && (State in columns ==> r.state in {Some("active"), Some("disabled"), Some("unlinked")})
  }

  lemma UpgradableIff(db: Db)
    ensures Upgradable(db) <==> HasTables(db) && forall i :: 0 <= i < |db.indexes| ==> NamedAsExpected(db.indexes[i])
  {
    forall i | 0 <= i < |db.indexes| ensures AsExpected(db.indexes[i]) <==> NamedAsExpected(db.indexes[i]) {}
  }

  /**
   A table with the old uniqueness (over all rows) upgrades exactly when its columns and index names are as expected,
   no value is missing, no id is there twice, each state is a known one, and the check of foreign keys passes.
   */
  lemma LegacyUpgradesIff(db: Db, now: string)
    requires HasLegacy(db.indexes) && PairsUnique(db.rows) && RowidOrder(db.rows)
    ensures Upgrade(db, now).Ok? <==>
            && HasTables(db) && (forall i :: 0 <= i < |db.indexes| ==> NamedAsExpected(db.indexes[i]))
            && (forall i :: 0 <= i < |db.rows| ==> NothingMissing(db.columns, db.rows[i]))
            && (forall i, j :: 0 <= i < j < |db.rows| ==> db.rows[i].id != db.rows[j].id)
            && forall i :: 0 <= i < |db.rows| && db.rows[i].accountId.Some? && db.rows[i].accountId.value !in db.accounts ==>
                 db.accountFk == Some(0) && db.rows[i].rowid == i + 1
  {
    RebuildCheckIff(db, now);
    var rows := FilledRows(db.columns, db.rows, now);
    forall i, j | 0 <= i < j < |rows| ensures rows[i].id == rows[j].id <==> db.rows[i].id == db.rows[j].id {}
    assert TriplesUnique(rows);
  }

  /** Without an issuer column the issuer follows from the provider, so the new key is as unique as the old one. */
  lemma FilledUniqueIff(db: Db, now: string)
    ensures TriplesUnique(FilledRows(db.columns, db.rows, now))
            <==> if Issuer in db.columns then TriplesUnique(db.rows) else PairsUnique(db.rows)
  {
    var rows := FilledRows(db.columns, db.rows, now);
    forall i, j | 0 <= i < j < |db.rows|
      ensures SameTriple(rows[i], rows[j]) <==>
              && db.rows[i].provider.Some? && db.rows[i].subject.Some?
              && db.rows[i].provider == db.rows[j].provider && db.rows[i].subject == db.rows[j].subject
              && (Issuer in db.columns ==> db.rows[i].issuer.Some? && db.rows[i].issuer == db.rows[j].issuer)
    {
    }
    if Issuer in db.columns {
      assert forall i, j :: 0 <= i < j < |db.rows| ==> (SameTriple(rows[i], rows[j]) <==> SameTriple(db.rows[i], db.rows[j]));
    }
  }

  /** Without a rebuild the rows keep their numbers, so the check of foreign keys passes. */
  lemma PlainCheckPasses(db: Db, now: string)
    ensures NothingNew(db, WithColumns(db, now).(indexes := AddedIndexes(db.indexes)))
  {
    var after := WithColumns(db, now).(indexes := AddedIndexes(db.indexes));
    forall id ensures HasId(db.rows, id) ==> HasId(after.rows, id) {
      if HasId(db.rows, id) {
        var i :| 0 <= i < |db.rows| && db.rows[i].id == Some(id);
        assert after.rows[i].id == Some(id);
      }
    }
    assert forall i :: 0 <= i < |db.rows| ==> (Dangling(after, after.rows[i]) <==> Dangling(db, db.rows[i]));
  }

  /**
   A table without the old uniqueness upgrades exactly when its columns and index names are as expected and the new
   uniqueness is there already, or can be created: its name is free and the rows obey it.
   */
  lemma PlainUpgradesIff(db: Db, now: string)
    requires !HasLegacy(db.indexes)
    ensures Upgrade(db, now).Ok? <==>
            && HasTables(db) && (forall i :: 0 <= i < |db.indexes| ==> NamedAsExpected(db.indexes[i]))
            && (|| HasTriple(db.indexes)
                || (!HasName(db.indexes, UniqueTriple)
                    && if Issuer in db.columns then TriplesUnique(db.rows) else PairsUnique(db.rows)))
  {
    UpgradableIff(db);
    FilledUniqueIff(db, now);
    PlainCheckPasses(db, now);
  }

  /** One row with rowid 2 whose account is gone: nothing new is violated, and yet the migration refuses. */
  lemma UnusedRowidRefuses(db: Db, now: string, r: Row)
    requires HasLegacy(db.indexes) && db.rows == [r] && r.rowid == 2 && db.accountFk == Some(0)
    requires r.accountId.Some? && r.accountId.value !in db.accounts
    ensures Upgrade(db, now) == Err(())
  {
    assert db.rows[0] == r;
    RebuildCheckIff(db, now);
  }

  // ---------------------------------------------------------------- the migration

  /** The triggers there are after the statements have been executed in turn, with none before. */
  function Recreated(statements: seq<(string, string)>): map<string, string> {
    if statements == [] then map[]
    else
      var n := |statements| - 1;
      Recreated(statements[..n])[statements[n].0 := statements[n].1]
  }

  /** The groups of statements that the engine may refuse for reasons outside this model. */
  datatype Statement = Begin | AlterTable | UpdateRows | CreateTable | CopyRows | SwapTables | CreateIndexes | CommitAll

  datatype Outcome = Completed | Raised

  class Connection {
    var db: Db
    var foreignKeys: bool

    constructor (db: Db, foreignKeys: bool)
      ensures this.db == db && this.foreignKeys == foreignKeys
    {
      this.db, this.foreignKeys := db, foreignKeys;
    }

    /** The added columns with their defaults, and the two updates, row by row. */
    method FillRows(now: string) returns (rows: seq<Row>)
      ensures rows == FilledRows(db.columns, db.rows, now)
    {
      rows := [];
      for i := 0 to |db.rows|
        invariant |rows| == i && forall j :: 0 <= j < i ==> rows[j] == Filled(db.columns, db.rows[j], now)
      {
        var r := db.rows[i];
        if Issuer !in db.columns {
          r := r.(issuer := Some("restia-local"));
        }
        if State !in db.columns {
          r := r.(state := Some("active"));
        }
        if LinkedAt !in db.columns {
          r := r.(linkedAt := None);
        }
        if LastVerifiedAt !in db.columns {
          r := r.(lastVerifiedAt := None);
        }
        r := r.(linkedAt := Coalesce(r.linkedAt, r.createdAt, now));
        if Issuer !in db.columns && r.provider.Some? && Lower(r.provider.value) != "local" {
          r := r.(issuer := Some("legacy:" + Lower(r.provider.value)));
        }
        rows := rows + [r];
      }
    }

    /** Is there an index with an unexpected definition, a legacy unique one, the desired one? */
    method Classify() returns (unexpected: bool, legacy: bool, desired: bool)
      ensures unexpected <==> exists i :: 0 <= i < |db.indexes| && !AsExpected(db.indexes[i])
      ensures legacy == HasLegacy(db.indexes) && desired == HasTriple(db.indexes)
    {
      unexpected, legacy, desired := false, false, false;
      for i := 0 to |db.indexes|
        invariant unexpected <==> exists j :: 0 <= j < i && !AsExpected(db.indexes[j])
        invariant legacy <==> exists j :: 0 <= j < i && IsLegacy(db.indexes[j])
        invariant desired <==> exists j :: 0 <= j < i && IsTriple(db.indexes[j]) && !db.indexes[j].partial
      {
        unexpected := unexpected || !AsExpected(db.indexes[i]);
        legacy := legacy || IsLegacy(db.indexes[i]);
        desired := desired || (IsTriple(db.indexes[i]) && !db.indexes[i].partial);
      }
    }

    method CollectPreserved() returns (preserved: seq<Index>)
      ensures preserved == Preserved(db.indexes)
    {
      preserved := [];
      for i := 0 to |db.indexes|
        invariant preserved == Preserved(db.indexes[..i])
      {
        assert db.indexes[..i + 1][..i] == db.indexes[..i];
        if IsPreserved(db.indexes[i]) {
          preserved := preserved + [db.indexes[i]];
        }
      }
      assert db.indexes[..|db.indexes|] == db.indexes;
    }

    static method CreateCanonicalIndexes(made: seq<Index>) returns (indexes: seq<Index>)
      ensures indexes == made + CanonicalIndexes()
    {
      indexes := made;
      for i := 0 to |CANONICAL|
        invariant indexes == made + seq(i, j requires 0 <= j < i => CanonicalIndex(CANONICAL[j]))
      {
        indexes := indexes + [CanonicalIndex(CANONICAL[i])];
      }
    }

    /** The names and statements of the triggers. */
    method CollectTriggers() returns (preserved: seq<(string, string)>)
      ensures Recreated(preserved) == db.triggers
    {
      preserved := [];
      var todo := db.triggers.Keys;
      while todo != {}
        invariant todo <= db.triggers.Keys
        invariant Recreated(preserved) == db.triggers - todo
        decreases |todo|
      {
        var name :| name in todo;
        var longer := preserved + [(name, db.triggers[name])];
        assert longer[..|preserved|] == preserved;
        preserved, todo := longer, todo - {name};
      }
    }

    static method RecreateTriggers(statements: seq<(string, string)>) returns (triggers: map<string, string>)
      ensures triggers == Recreated(statements)
    {
      triggers := map[];
      for i := 0 to |statements|
        invariant triggers == Recreated(statements[..i])
      {
        assert statements[..i + 1][..i] == statements[..i];
        triggers := triggers[statements[i].0 := statements[i].1];
      }
      assert statements[..|statements|] == statements;
    }

    /** Between BEGIN and COMMIT: what would be committed, or an exception. */
    method RunTransaction(now: string, refused: set<Statement>) returns (r: Result<Db, ()>)
      requires db.hasIdentities && db.hasAccounts && !db.hasStale
      ensures r.Ok? ==> r == Upgrade(db, now)
      ensures refused == {} ==> r == Upgrade(db, now)
    {
      if Begin in refused || !(REQUIRED_COLUMNS <= db.columns) || !(db.columns <= CANONICAL_COLUMNS) {
        return Err(());
      }
      if AlterTable in refused || UpdateRows in refused {
        return Err(());
      }
      var rows := FillRows(now);
      var work := db.(columns := CANONICAL_COLUMNS, rows := rows);
      var unexpected, legacy, desired := Classify();
      if unexpected {
        return Err(());
      }
      if legacy {
        var preserved := CollectPreserved();
        var statements := CollectTriggers();
        if CreateTable in refused || CopyRows in refused || !Copyable(work.rows) {
          return Err(());
        }
        var copied := Renumbered(work.rows);
        if |copied| != |work.rows| || SwapTables in refused || CreateIndexes in refused {
          return Err(());
        }
        // the old table has taken its indexes and triggers along
        work := work.(rows := copied, indexes := [PRIMARY, TRIPLE_CONSTRAINT], triggers := map[], accountFk := Some(0));
        var indexes := CreateCanonicalIndexes(work.indexes);
        var triggers := RecreateTriggers(statements);
        work := work.(indexes := indexes + preserved, triggers := triggers);
        assert work.indexes == RebuiltIndexes(db.indexes);
      } else {
        if CreateIndexes in refused || (!desired && (HasName(db.indexes, UniqueTriple) || !TriplesUnique(work.rows))) {
          return Err(());
        }
        var indexes := if desired then db.indexes else db.indexes + [TRIPLE_INDEX];
        indexes := WithIndex(indexes, ByAccount);
        indexes := WithIndex(indexes, ByAccountProvider);
        indexes := WithIndex(indexes, ByIssuerSubject);
        work := work.(indexes := indexes);
      }
      if !NothingNew(db, work) || CommitAll in refused {
        return Err(());
      }
      return Ok(work);
    }

    /**
     The whole migration.  An exception leaves rows and schema as they were, except when foreign-key enforcement cannot
     be switched back on, which is found out after the commit.
     */
    method Migrate(now: string, refused: set<Statement>, canDisable: bool, canRestore: bool) returns (outcome: Outcome)
      modifies this
      ensures db == old(db) || (old(db).hasIdentities && Upgrade(old(db), now) == Ok(db))
      ensures outcome == Completed && old(db).hasIdentities ==> Upgrade(old(db), now) == Ok(db)
      ensures outcome == Raised && canRestore ==> db == old(db)
      ensures canRestore ==> foreignKeys == old(foreignKeys)
      ensures refused == {} && canDisable && canRestore ==>
                (outcome == Completed <==> !old(db).hasIdentities || Upgrade(old(db), now).Ok?)
      ensures refused == {} && canDisable && old(db).hasIdentities && Upgrade(old(db), now).Ok? ==>
                && Upgrade(old(db), now) == Ok(db)
                && (outcome == Raised <==> old(foreignKeys) && !canRestore)
    {
      var original := foreignKeys;
      outcome := Completed;
      if db.hasIdentities {
        if !db.hasAccounts || db.hasStale {
          outcome := Raised;
        } else {
          foreignKeys := foreignKeys && !canDisable;
          if foreignKeys {
            outcome := Raised;
          } else {
            var work := RunTransaction(now, refused);
            if work.Ok? {
              db := work.value;
            } else {
              outcome := Raised;
            }
          }
        }
      }
      if canRestore {
        foreignKeys := original;
      } else {
        outcome := if foreignKeys != original then Raised else outcome;
      }
    }
  }
}
