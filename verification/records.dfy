/**
 * The persisted rows behind `Source` and `Thumbnail`. Each table is a map
 * from the fields the model declares unique together to the row, so the
 * uniqueness constraint holds by construction, plus the auto-increment
 * counter that hands out primary keys.
 */
module Records {

  /**
   * The lookup fields of a row: `(storage_hash, name)` for a source file,
   * `(storage_hash, name, source)` for a thumbnail, where `source` is the
   * primary key of the thumbnail's source row.
   */
  datatype Criteria =
    | SourceCriteria(storageHash: string, name: string)
    | ThumbnailCriteria(storageHash: string, name: string, sourcePk: nat)

  /** One row; `modified` is a timestamp, kept as an integer. */
  datatype FileRecord = FileRecord(pk: nat, criteria: Criteria, modified: int)

  datatype Table = Table(rows: map<Criteria, FileRecord>, nextPk: nat)

  /**
   * Each row sits under its own lookup fields, primary keys are distinct,
   * and the counter is past every primary key in use.
   */
  ghost predicate WellFormed(t: Table) {
    && (forall c :: c in t.rows ==> t.rows[c].criteria == c && t.rows[c].pk < t.nextPk)
    && (forall c, d :: c in t.rows && d in t.rows && t.rows[c].pk == t.rows[d].pk ==> c == d)
  }

  /** What `get_or_create` hands back: the table afterwards, the row, and whether it was inserted. */
  datatype Fetched = Fetched(table: Table, record: FileRecord, created: bool)

  /**
   * `get_or_create` on the lookup fields, as one atomic insert-if-absent.
   * `modified` is the value the inserted row receives: the caller's
   * `defaults`, else the column default (the current time).
   */
  function GetOrCreate(t: Table, c: Criteria, modified: int): (f: Fetched)
    ensures f.created <==> c !in t.rows
    ensures f.table.rows.Keys == t.rows.Keys + {c}
    ensures c in f.table.rows && f.table.rows[c] == f.record
    ensures forall d :: d in t.rows ==> f.table.rows[d] == t.rows[d]
    ensures |f.table.rows| == |t.rows| + (if f.created then 1 else 0)
    ensures f.created ==> f.record.criteria == c && f.record.modified == modified
    ensures WellFormed(t) && f.created ==> forall d :: d in t.rows ==> t.rows[d].pk != f.record.pk
    ensures WellFormed(t) ==> WellFormed(f.table) && f.record.criteria == c
  {
    if c in t.rows then
      Fetched(t, t.rows[c], false)
    else
      var r := FileRecord(t.nextPk, c, modified);
      Fetched(Table(t.rows[c := r], t.nextPk + 1), r, true)
  }

  /**
   * `filter(pk=pk).update(modified=m)`: a partial update that touches only
   * the `modified` column of the rows carrying that primary key.
   */
  function UpdateModified(t: Table, pk: nat, m: int): (t': Table)
    ensures t'.nextPk == t.nextPk && t'.rows.Keys == t.rows.Keys
    ensures forall c :: c in t.rows && t.rows[c].pk != pk ==> t'.rows[c] == t.rows[c]
    ensures forall c :: c in t.rows && t.rows[c].pk == pk ==>
      t'.rows[c].modified == m && t'.rows[c].pk == pk && t'.rows[c].criteria == t.rows[c].criteria
    ensures WellFormed(t) ==> WellFormed(t')
  {
    Table(map c | c in t.rows :: if t.rows[c].pk == pk then t.rows[c].(modified := m) else t.rows[c], t.nextPk)
  }

  /** In a well-formed table the update changes exactly the one row holding that key. */
  lemma UpdateModifiedTouchesOneRow(t: Table, c: Criteria, m: int)
    requires WellFormed(t) && c in t.rows
    ensures UpdateModified(t, t.rows[c].pk, m).rows == t.rows[c := t.rows[c].(modified := m)]
  {
    var t' := UpdateModified(t, t.rows[c].pk, m);
    var expected := t.rows[c := t.rows[c].(modified := m)];
    assert t'.rows.Keys == expected.Keys;
    forall d | d in t'.rows
      ensures t'.rows[d] == expected[d]
    {
      if d != c {
        assert t.rows[d].pk != t.rows[c].pk;
      }
    }
  }

  /** An update for a primary key no row carries (a stale cached row) changes nothing. */
  lemma UpdateModifiedAbsentPk(t: Table, pk: nat, m: int)
    requires forall c :: c in t.rows ==> t.rows[c].pk != pk
    ensures UpdateModified(t, pk, m) == t
  {
    var t' := UpdateModified(t, pk, m);
    assert t'.rows == t.rows;
  }
}
