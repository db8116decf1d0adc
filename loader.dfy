/**
 * `clear_tables`: every table is emptied, in reverse dependency order, so
 * that no delete is refused by a foreign key.
 */
module Loader {
  import opened Schema
  import opened Store

  /**
   * `clear_tables`: `DELETE FROM` each table, last in the load sequence
   * first.  Because every referencing table comes later in the sequence, it
   * is already empty when the tables it references are cleared, so no delete
   * is refused and every table ends up empty.
   */
  method ClearTables(db: Database)
    requires db.Valid() && forall t :: t in db.working
    modifies db
    ensures db.Valid() && db.inTransaction && db.committed == old(db.committed)
    ensures db.working == EmptyTables()
  {
    var i := |LoadSequence|;
    while i > 0
      invariant 0 <= i <= |LoadSequence|
      invariant db.Valid() && db.committed == old(db.committed)
      invariant i < |LoadSequence| ==> db.inTransaction
      invariant forall u :: u in db.working
      invariant forall j | i <= j < |LoadSequence| :: db.working[LoadSequence[j]] == []
    {
      i := i - 1;
      var t := LoadSequence[i];
      ReverseOrderUnblocked(db.working, i);
      var ok := db.Delete(t);
      assert ok;
    }
    forall u ensures u in AllTables && db.working[u] == [] {
      assert LoadSequence[Position(u)] == u;
    }
    assert db.working == EmptyTables();
  }

  /**
   * Deleting the `i`-th table of the load sequence is not refused once every
   * table after it has been emptied.
   */
  lemma ReverseOrderUnblocked(db: Tables, i: nat)
    requires i < |LoadSequence|
    requires forall j | i < j < |LoadSequence| :: LoadSequence[j] in db && db[LoadSequence[j]] == []
    ensures !DeleteBlocked(db, LoadSequence[i])
  {
    var t := LoadSequence[i];
    if DeleteBlocked(db, t) {
      var u, r, k :| u in db && 0 <= r < |db[u]| && 0 <= k < |ForeignKeys(u)| &&
        ForeignKeys(u)[k].parent == t && ForeignKeys(u)[k].column < |db[u][r]| &&
        db[u][r][ForeignKeys(u)[k].column] != Null;
      assert References(u, t);
      LoadSequenceIsTopological(u, t);
      assert false;
    }
  }
}
