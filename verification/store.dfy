/** The `Notice` table behind `store.Notice`: rows are only ever inserted (never updated or
    deleted), and an insert whose (guid, sourceId) pair is already present is skipped, as
    `INSERT ... ON CONFLICT (guid, "sourceId") DO NOTHING` does. The connection and the batch
    transport are inputs: whether the batch or the count query failed. */
module Store {
  import opened Models

  /** The keys of the rows, i.e. the values of the conflict target. */
  function KeysOf(rows: seq<Notice>): set<NoticeKey>
  {
    if rows == [] then {} else KeysOf(rows[..|rows| - 1]) + {Key(rows[|rows| - 1])}
  }

  /** A key is in the key set exactly when some row carries it. */
  lemma {:induction false} KeysOfMembers(rows: seq<Notice>, k: NoticeKey)
    ensures k in KeysOf(rows) <==> exists i :: 0 <= i < |rows| && Key(rows[i]) == k
  {
    if rows != [] {
      var init := rows[..|rows| - 1];
      KeysOfMembers(init, k);
      if k in KeysOf(init) {
        var i :| 0 <= i < |init| && Key(init[i]) == k;
        assert Key(rows[i]) == k;
      }
      if exists i :: 0 <= i < |rows| && Key(rows[i]) == k {
        var i :| 0 <= i < |rows| && Key(rows[i]) == k;
        if i < |init| {
          assert Key(init[i]) == k;
        }
      }
    }
  }

  /** No two rows share a (guid, sourceId) pair: the unique index the conflict target needs. */
  predicate UniqueKeys(rows: seq<Notice>)
  {
    forall i, j :: 0 <= i < j < |rows| ==> Key(rows[i]) != Key(rows[j])
  }

  /** Appending a row whose key is absent keeps the pair unique. */
  lemma AppendFreshKeepsUniqueKeys(rows: seq<Notice>, n: Notice)
    requires UniqueKeys(rows) && Key(n) !in KeysOf(rows)
    ensures UniqueKeys(rows + [n])
  {
    KeysOfMembers(rows, Key(n));
  }

  /** One `INSERT ... ON CONFLICT DO NOTHING`. */
  function InsertOne(rows: seq<Notice>, n: Notice): seq<Notice>
  {
    if Key(n) in KeysOf(rows) then rows else rows + [n]
  }

  /** The inserts of a batch, applied in slice order. */
  function InsertAll(rows: seq<Notice>, batch: seq<Notice>): (r: seq<Notice>)
    ensures |rows| <= |r| <= |rows| + |batch|
    ensures r[..|rows|] == rows
    ensures KeysOf(r) == KeysOf(rows) + KeysOf(batch)
  {
    if batch == [] then rows
    else
      var prev := InsertAll(rows, batch[..|batch| - 1]);
      var n := batch[|batch| - 1];
      assert KeysOf(batch) == KeysOf(batch[..|batch| - 1]) + {Key(n)};
      if Key(n) in KeysOf(prev) then prev
      else
        assert (prev + [n])[..|rows|] == prev[..|rows|];
        prev + [n]
  }

  /** Inserting keeps the pair unique. */
  lemma {:induction false} InsertAllKeepsUniqueKeys(rows: seq<Notice>, batch: seq<Notice>)
    requires UniqueKeys(rows)
    ensures UniqueKeys(InsertAll(rows, batch))
  {
    if batch != [] {
      var prev := InsertAll(rows, batch[..|batch| - 1]);
      InsertAllKeepsUniqueKeys(rows, batch[..|batch| - 1]);
      if Key(batch[|batch| - 1]) !in KeysOf(prev) {
        AppendFreshKeepsUniqueKeys(prev, batch[|batch| - 1]);
      }
    }
  }

  /** A batch whose keys are all present changes nothing. */
  lemma {:induction false} InsertAllOfPresentKeys(rows: seq<Notice>, batch: seq<Notice>)
    requires KeysOf(batch) <= KeysOf(rows)
    ensures InsertAll(rows, batch) == rows
  {
    if batch != [] {
      var init := batch[..|batch| - 1];
      assert KeysOf(batch) == KeysOf(init) + {Key(batch[|batch| - 1])};
      InsertAllOfPresentKeys(rows, init);
    }
  }

  /** Running the same batch twice leaves the rows of running it once. */
  lemma InsertAllIdempotent(rows: seq<Notice>, batch: seq<Notice>)
    ensures InsertAll(InsertAll(rows, batch), batch) == InsertAll(rows, batch)
  {
    InsertAllOfPresentKeys(InsertAll(rows, batch), batch);
  }

  /** `batch[j]` is the first notice of the batch with its key, and that key is not in
      the table. */
  predicate FirstOccurrence(rows: seq<Notice>, batch: seq<Notice>, j: int)
  {
    0 <= j < |batch| && Key(batch[j]) !in KeysOf(rows) + KeysOf(batch[..j])
  }

  lemma FirstOccurrenceExtends(rows: seq<Notice>, init: seq<Notice>, n: Notice, j: int)
    requires FirstOccurrence(rows, init, j)
    ensures FirstOccurrence(rows, init + [n], j) && (init + [n])[j] == init[j]
  {
    assert (init + [n])[..j] == init[..j];
  }

  /** Every row added is a notice of the batch whose key was neither in the table nor
      earlier in the batch: the first notice with a given key wins. */
  lemma {:induction false} NewRowsAreFirstOccurrences(rows: seq<Notice>, batch: seq<Notice>)
    ensures forall i :: |rows| <= i < |InsertAll(rows, batch)| ==>
      exists j :: FirstOccurrence(rows, batch, j) && InsertAll(rows, batch)[i] == batch[j]
  {
    if batch != [] {
      var init, n := batch[..|batch| - 1], batch[|batch| - 1];
      assert batch == init + [n];
      var prev := InsertAll(rows, init);
      NewRowsAreFirstOccurrences(rows, init);
      var r := InsertAll(rows, batch);
      assert r == if Key(n) in KeysOf(prev) then prev else prev + [n];
      forall i | |rows| <= i < |r|
        ensures exists j :: FirstOccurrence(rows, batch, j) && r[i] == batch[j]
      {
        if i < |prev| {
          var j :| FirstOccurrence(rows, init, j) && prev[i] == init[j];
          FirstOccurrenceExtends(rows, init, n, j);
          assert r[i] == batch[j];
        } else {
          var j := |batch| - 1;
          assert batch[..j] == init;
          assert FirstOccurrence(rows, batch, j) && r[i] == batch[j];
        }
      }
    } else {
      assert InsertAll(rows, batch) == rows;
    }
  }

  /** A notice whose key is absent from the table and from the rest of the batch is stored. */
  lemma {:induction false} FreshKeyIsStored(rows: seq<Notice>, batch: seq<Notice>, j: nat)
    requires j < |batch|
    requires Key(batch[j]) !in KeysOf(rows)
    requires forall i :: 0 <= i < |batch| && i != j ==> Key(batch[i]) != Key(batch[j])
    ensures batch[j] in InsertAll(rows, batch)[|rows|..]
  {
    var init, n := batch[..|batch| - 1], batch[|batch| - 1];
    var prev := InsertAll(rows, init);
    if j == |batch| - 1 {
      KeysOfMembers(init, Key(n));
      assert Key(n) !in KeysOf(init);
      assert InsertAll(rows, batch) == prev + [n];
      assert InsertAll(rows, batch)[|rows|..] == prev[|rows|..] + [n];
    } else {
      FreshKeyIsStored(rows, init, j);
      var r := InsertAll(rows, batch);
      assert r == prev || r == prev + [n];
      assert r[..|prev|] == prev;
      assert prev[|rows|..] == r[|rows|..|prev|];
    }
  }

  /** Two notices with the same guid from two sources are both stored. */
  lemma SameGuidDifferentSources(rows: seq<Notice>, a: Notice, b: Notice)
    requires a.guid == b.guid && a.sourceId != b.sourceId
    requires Key(a) !in KeysOf(rows) && Key(b) !in KeysOf(rows)
    ensures InsertAll(rows, [a, b]) == rows + [a, b]
  {
    StoreFirstFresh(rows, a);
    assert Key(a) != Key(b);
    StoreNextFresh(rows, [a], b);
    assert [a] + [b] == [a, b];
    AppendAssociative(rows, [a], [b]);
  }

  lemma StoreFirstFresh(rows: seq<Notice>, n: Notice)
    requires Key(n) !in KeysOf(rows)
    ensures InsertAll(rows, [n]) == rows + [n]
    ensures KeysOf(InsertAll(rows, [n])) == KeysOf(rows) + {Key(n)}
  {
    assert [n][..0] == [];
    assert (rows + [n])[..|rows|] == rows;
  }

  lemma StoreNextFresh(rows: seq<Notice>, init: seq<Notice>, n: Notice)
    requires Key(n) !in KeysOf(InsertAll(rows, init))
    ensures InsertAll(rows, init + [n]) == InsertAll(rows, init) + [n]
  {
    assert (init + [n])[..|init|] == init;
  }

  /** With unique keys the row count is the number of keys. */
  lemma {:induction false} UniqueKeysCount(rows: seq<Notice>)
    requires UniqueKeys(rows)
    ensures |KeysOf(rows)| == |rows|
  {
    if rows != [] {
      var init := rows[..|rows| - 1];
      assert UniqueKeys(init);
      UniqueKeysCount(init);
      KeysOfMembers(init, Key(rows[|rows| - 1]));
      assert Key(rows[|rows| - 1]) !in KeysOf(init);
    }
  }

  /** The count rises by exactly the number of distinct batch keys that were absent. */
  lemma InsertAllCountDelta(rows: seq<Notice>, batch: seq<Notice>)
    requires UniqueKeys(rows)
    ensures |InsertAll(rows, batch)| - |rows| == |KeysOf(batch) - KeysOf(rows)|
  {
    var r := InsertAll(rows, batch);
    InsertAllKeepsUniqueKeys(rows, batch);
    UniqueKeysCount(rows);
    UniqueKeysCount(r);
    assert KeysOf(r) == KeysOf(rows) + (KeysOf(batch) - KeysOf(rows));
  }

  /** The first row with the given id, if any. */
  function FindById(rows: seq<Notice>, id: string): (r: Outcome<Notice>)
    ensures r.Ok? ==> r.value in rows && r.value.id == id
    ensures r.Err? <==> forall i :: 0 <= i < |rows| ==> rows[i].id != id
    ensures r.Err? ==> r.error == NoRows
  {
    if rows == [] then Err(NoRows)
    else if rows[0].id == id then Ok(rows[0])
    else
      var rest := FindById(rows[1..], id);
      assert forall i :: 1 <= i < |rows| ==> rows[i] == rows[1..][i - 1];
      rest
  }

  /** The error a single-row query gives when no row matches. */
  const NoRows := "no rows in result set"

  /** The columns the INSERT names. */
  const InsertColumns := ["id", "title", "body", "url", "authorName", "authorUrl", "imageUrl",
                          "sourceId", "raw", "guid", "publishedDate"]

  /** The destinations `GetNotice` scans `SELECT *` into. */
  const ScanTargets := ["id", "title", "body", "url", "authorName", "authorUrl", "imageUrl",
                        "createdAt", "updatedAt", "sourceId", "raw", "guid"]

  /** A row's scan succeeds only when the query returns as many columns as there are
      destinations. */
  function ScanRow(columns: set<string>, row: Notice): (r: Outcome<Notice>)
    ensures r.Ok? <==> |columns| == |ScanTargets|
  {
    if |columns| == |ScanTargets| then Ok(row) else Err("number of field descriptions must equal number of destinations")
  }

  /** `GetNotice` as written: `SELECT *` returns every column of the table. */
  function GetNoticeAsWritten(columns: set<string>, rows: seq<Notice>, id: string): Outcome<Notice>
  {
    match FindById(rows, id)
    case Err(e) => Err(e)
    case Ok(row) => ScanRow(columns, row)
  }

  /** The columns the INSERT writes together with the two timestamps the scan reads. */
  const TableColumns := {"id", "title", "body", "url", "authorName", "authorUrl", "imageUrl",
                         "createdAt", "updatedAt", "sourceId", "raw", "guid", "publishedDate"}

  lemma TableColumnsCount()
    ensures |TableColumns| == 13
  {
  }

  lemma TableColumnsPresent(columns: set<string>)
    requires (set c | c in InsertColumns) <= columns && (set c | c in ScanTargets) <= columns
    ensures TableColumns <= columns
  {
    forall c | c in TableColumns
      ensures c in columns
    {
      if c == "publishedDate" {
        assert InsertColumns[10] == c;
      } else {
        assert c in ScanTargets;
      }
    }
  }

  /** A table holding every column the INSERT writes and every column the scan reads has
      more columns than scan destinations, so `GetNotice` as written fails for every id. */
  lemma GetNoticeAsWrittenAlwaysFails(columns: set<string>, rows: seq<Notice>, id: string)
    requires (set c | c in InsertColumns) <= columns && (set c | c in ScanTargets) <= columns
    ensures GetNoticeAsWritten(columns, rows, id).Err?
  {
    TableColumnsCount();
    TableColumnsPresent(columns);
    SubsetCardinality(TableColumns, columns);
  }

  lemma SubsetCardinality<T>(small: set<T>, big: set<T>)
    requires small <= big
    ensures |small| <= |big|
  {
    assert big == small + (big - small);
  }

  /** The store: the table's rows in insertion order. */
  class NoticeStore {
    var rows: seq<Notice>

    constructor (initial: seq<Notice>)
      ensures rows == initial
    {
      rows := initial;
    }

    /** One queued INSERT ... ON CONFLICT DO NOTHING. */
    method InsertOnConflictDoNothing(n: Notice)
      modifies this
      ensures rows == InsertOne(old(rows), n)
      ensures UniqueKeys(old(rows)) ==> UniqueKeys(rows)
    {
      if Key(n) !in KeysOf(rows) {
        if UniqueKeys(rows) {
          AppendFreshKeepsUniqueKeys(rows, n);
        }
        rows := rows + [n];
      }
    }

    /** `CreateNotices`: one INSERT queued per notice, in slice order; when the batch is
        refused (`batchError`) the table is unchanged and the error is returned, otherwise
        the inserts take effect in order. */
    method CreateNotices(notices: seq<Notice>, batchError: Option<string>) returns (err: Option<string>)
      modifies this
      ensures err == batchError
      ensures err.Some? ==> rows == old(rows)
      ensures err.None? ==> rows == InsertAll(old(rows), notices)
      ensures UniqueKeys(old(rows)) ==> UniqueKeys(rows)
    {
      var queued: seq<Notice> := [];
      for i := 0 to |notices|
        invariant queued == notices[..i]
      {
        queued := queued + [notices[i]];
      }
      assert queued == notices;
      if batchError.Some? {
        return batchError;
      }
      ghost var before := rows;
      for i := 0 to |queued|
        invariant rows == InsertAll(before, queued[..i])
      {
        assert queued[..i + 1][..i] == queued[..i];
        InsertOnConflictDoNothing(queued[i]);
      }
      assert queued[..|queued|] == notices;
      if UniqueKeys(before) {
        InsertAllKeepsUniqueKeys(before, notices);
      }
      err := None;
    }

    /** `GetCount`: the number of rows, or 0 when the query fails. */
    method GetCount(queryOk: bool) returns (count: int)
      ensures queryOk ==> count == |rows| && count >= 0
      ensures !queryOk ==> count == 0
    {
      if !queryOk {
        return 0;
      }
      count := |rows|;
    }

    /** `GetNotice` with its scan matching the table: the row with that id, or the
        no-rows error. */
    method GetNotice(id: string) returns (notice: Outcome<Notice>)
      ensures notice.Ok? ==> notice.value in rows && notice.value.id == id
      ensures notice.Err? <==> forall i :: 0 <= i < |rows| ==> rows[i].id != id
      ensures notice.Err? ==> notice.error == NoRows
    {
      notice := FindById(rows, id);
    }
  }
}
