/** The hash chain over the audit event table. */
module HashChain {
  import opened JsonText
  import opened Sequences

  datatype EventRow = EventRow(json: Text, previous: Text, hash: Text)

  /** A hash of text; every hash has the length of the genesis value, and nothing more is assumed. */
  type Hash = Text -> Text

  const HASH_LENGTH := 64

  const GENESIS: Text := [
    ZERO, ZERO, ZERO, ZERO, ZERO, ZERO, ZERO, ZERO, ZERO, ZERO, ZERO, ZERO, ZERO, ZERO, ZERO, ZERO,
    ZERO, ZERO, ZERO, ZERO, ZERO, ZERO, ZERO, ZERO, ZERO, ZERO, ZERO, ZERO, ZERO, ZERO, ZERO, ZERO,
    ZERO, ZERO, ZERO, ZERO, ZERO, ZERO, ZERO, ZERO, ZERO, ZERO, ZERO, ZERO, ZERO, ZERO, ZERO, ZERO,
    ZERO, ZERO, ZERO, ZERO, ZERO, ZERO, ZERO, ZERO, ZERO, ZERO, ZERO, ZERO, ZERO, ZERO, ZERO, ZERO
  ]

  ghost predicate FixedLength(sha: Hash) {
    forall text :: |sha(text)| == HASH_LENGTH
  }

  function Input(previous: Text, json: Text): Text {
    previous + [NEWLINE] + json
  }

  function LastHash(rows: seq<EventRow>): Text {
    if rows == [] then GENESIS else rows[|rows| - 1].hash
  }

  /** Each row names the hash of the row before it, and carries the hash of that name and its own content. */
  predicate Verifies(rows: seq<EventRow>, sha: Hash) {
    forall i :: 0 <= i < |rows| ==>
      rows[i].previous == LastHash(rows[..i]) && rows[i].hash == sha(Input(rows[i].previous, rows[i].json))
  }

  class EventTable {
    const sha: Hash
    var rows: seq<EventRow>

    constructor (sha: Hash)
      ensures this.sha == sha && rows == []
    {
      this.sha, rows := sha, [];
    }

    /** Whatever is appended, a table that verified still does, and its old rows are untouched. */
    method AppendEvent(json: Text)
      modifies this
      ensures |rows| == |old(rows)| + 1 && rows[..|old(rows)|] == old(rows) && rows[|old(rows)|].json == json
      ensures Verifies(rows, sha) <==> Verifies(old(rows), sha)
    {
      var previousHash := if |rows| > 0 then rows[|rows| - 1].hash else GENESIS;
      var row := EventRow(json, previousHash, sha(previousHash + [NEWLINE] + json));
      AppendVerifies(rows, row, sha);
      rows := rows + [row];
    }

    method VerifyHashChain() returns (ok: bool)
      ensures ok <==> Verifies(rows, sha)
    {
      var expectedPrevious := GENESIS;
      for i := 0 to |rows|
        invariant expectedPrevious == LastHash(rows[..i])
        invariant Verifies(rows[..i], sha)
      {
        assert rows[..i + 1] == rows[..i] + [rows[i]];
        AppendVerifies(rows[..i], rows[i], sha);
        if rows[i].previous != expectedPrevious || sha(rows[i].previous + [NEWLINE] + rows[i].json) != rows[i].hash {
          PrefixVerifies(rows, i + 1, sha);
          return false;
        }
        expectedPrevious := rows[i].hash;
      }
      assert rows[..|rows|] == rows;
      return true;
    }
  }

  lemma AppendVerifies(rows: seq<EventRow>, row: EventRow, sha: Hash)
    ensures Verifies(rows + [row], sha) <==>
            Verifies(rows, sha) && row.previous == LastHash(rows) && row.hash == sha(Input(row.previous, row.json))
  {
    var all := rows + [row];
    assert all[..|rows|] == rows && all[|rows|] == row;
    forall i | 0 <= i < |rows| ensures all[..i] == rows[..i] && all[i] == rows[i] {
    }
  }

  /** Every prefix of a verifying table verifies: cutting off the end goes unnoticed. */
  lemma PrefixVerifies(rows: seq<EventRow>, n: nat, sha: Hash)
    requires n <= |rows|
    ensures Verifies(rows, sha) ==> Verifies(rows[..n], sha)
  {
    forall i | 0 <= i < n ensures rows[..n][..i] == rows[..i] && rows[..n][i] == rows[i] {
    }
  }

  /** The table after a history of appended events. */
  function Appended(jsons: seq<Text>, sha: Hash): (rows: seq<EventRow>)
    ensures |rows| == |jsons|
  {
    if jsons == [] then []
    else
      var before := Appended(jsons[..|jsons| - 1], sha);
      var json := jsons[|jsons| - 1];
      before + [EventRow(json, LastHash(before), sha(Input(LastHash(before), json)))]
  }

  /** Whatever events committed calls append, and in whatever order, the table verifies and holds them in that order. */
  lemma {:induction false} EveryHistoryVerifies(jsons: seq<Text>, sha: Hash)
    ensures Verifies(Appended(jsons, sha), sha) && |Appended(jsons, sha)| == |jsons|
    ensures forall i :: 0 <= i < |jsons| ==> Appended(jsons, sha)[i].json == jsons[i]
  {
    if jsons != [] {
      var front := jsons[..|jsons| - 1];
      EveryHistoryVerifies(front, sha);
      var before := Appended(front, sha);
      AppendVerifies(before, Appended(jsons, sha)[|before|], sha);
    }
  }

  /** The chain leaves no freedom: a verifying table is the one its events make. */
  lemma {:induction false} EventsDetermineTable(rows: seq<EventRow>, jsons: seq<Text>, sha: Hash)
    requires Verifies(rows, sha) && |rows| == |jsons| && forall i :: 0 <= i < |rows| ==> rows[i].json == jsons[i]
    ensures rows == Appended(jsons, sha)
    decreases |rows|
  {
    if rows != [] {
      var n := |rows| - 1;
      PrefixVerifies(rows, n, sha);
      EventsDetermineTable(rows[..n], jsons[..n], sha);
      LastSplits(rows);
    }
  }

  /** Appending events one after the other makes the table of their history. */
  method WriteHistory(jsons: seq<Text>, sha: Hash) returns (events: EventTable)
    ensures fresh(events) && events.sha == sha
    ensures events.rows == Appended(jsons, sha) && Verifies(events.rows, sha)
  {
    events := new EventTable(sha);
    for i := 0 to |jsons|
      invariant |events.rows| == i && Verifies(events.rows, sha)
      invariant forall k :: 0 <= k < i ==> events.rows[k].json == jsons[k]
    {
      events.AppendEvent(jsons[i]);
    }
    EventsDetermineTable(events.rows, jsons, sha);
  }

  /** Two different inputs hashed by these two tables have the same hash. */
  ghost predicate Collide(a: seq<EventRow>, b: seq<EventRow>, sha: Hash) {
    exists i, j :: 0 <= i < |a| && 0 <= j < |b|
                   && Input(a[i].previous, a[i].json) != Input(b[j].previous, b[j].json) && a[i].hash == b[j].hash
  }

  /** Some row of the table hashes to the genesis value. */
  ghost predicate HitsGenesis(a: seq<EventRow>) {
    exists i :: 0 <= i < |a| && a[i].hash == GENESIS
  }

  lemma InputSplits(p: Text, x: Text, q: Text, y: Text)
    requires |p| == |q| && Input(p, x) == Input(q, y)
    ensures p == q && x == y
  {
    assert p == Input(p, x)[..|p|] && q == Input(q, y)[..|p|];
    assert x == Input(p, x)[|p| + 1..] && y == Input(q, y)[|p| + 1..];
  }

  /**
    * Two verifying tables that end in the same hash are the same table, unless the hash itself fails them: two of
    * their inputs collide, or one of their rows hashes to the genesis value.
    */
  lemma {:induction false} SameTailSameTable(a: seq<EventRow>, b: seq<EventRow>, sha: Hash)
    requires FixedLength(sha) && Verifies(a, sha) && Verifies(b, sha) && LastHash(a) == LastHash(b)
    ensures a == b || Collide(a, b, sha) || HitsGenesis(a) || HitsGenesis(b)
    decreases |a|
  {
    if a == [] || b == [] {
      assert b != [] ==> b[|b| - 1].hash == GENESIS;
      assert a != [] ==> a[|a| - 1].hash == GENESIS;
    } else {
      var i, j := |a| - 1, |b| - 1;
      if Input(a[i].previous, a[i].json) == Input(b[j].previous, b[j].json) {
        SameLastRow(a, b, sha);
        SameTailSameTable(a[..i], b[..j], sha);
        Widen(a, i, b, j, sha);
        LastSplits(a);
        LastSplits(b);
      }
    }
  }

  /** Equal last inputs mean equal last rows, over tables that again end in the same hash. */
  lemma SameLastRow(a: seq<EventRow>, b: seq<EventRow>, sha: Hash)
    requires FixedLength(sha) && Verifies(a, sha) && Verifies(b, sha) && a != [] && b != []
    requires Input(a[|a| - 1].previous, a[|a| - 1].json) == Input(b[|b| - 1].previous, b[|b| - 1].json)
    ensures a[|a| - 1] == b[|b| - 1]
    ensures Verifies(a[..|a| - 1], sha) && Verifies(b[..|b| - 1], sha)
        && LastHash(a[..|a| - 1]) == LastHash(b[..|b| - 1])
  {
    var i, j := |a| - 1, |b| - 1;
    LastHashLength(a, i, sha);
    LastHashLength(b, j, sha);
    InputSplits(a[i].previous, a[i].json, b[j].previous, b[j].json);
    PrefixVerifies(a, i, sha);
    PrefixVerifies(b, j, sha);
  }

  lemma LastHashLength(rows: seq<EventRow>, n: nat, sha: Hash)
    requires FixedLength(sha) && Verifies(rows, sha) && n < |rows|
    ensures |rows[n].previous| == HASH_LENGTH
  {
    if n > 0 {
      assert rows[..n][n - 1] == rows[n - 1];
    }
  }

  lemma Widen(a: seq<EventRow>, i: nat, b: seq<EventRow>, j: nat, sha: Hash)
    requires i <= |a| && j <= |b|
    ensures Collide(a[..i], b[..j], sha) ==> Collide(a, b, sha)
    ensures HitsGenesis(a[..i]) ==> HitsGenesis(a)
    ensures HitsGenesis(b[..j]) ==> HitsGenesis(b)
  {
    if Collide(a[..i], b[..j], sha) {
      var m, n :| 0 <= m < i && 0 <= n < j && a[..i][m].hash == b[..j][n].hash
                  && Input(a[..i][m].previous, a[..i][m].json) != Input(b[..j][n].previous, b[..j][n].json);
      assert a[m].hash == b[n].hash && Input(a[m].previous, a[m].json) != Input(b[n].previous, b[n].json);
    }
    if HitsGenesis(a[..i]) {
      var m :| 0 <= m < i && a[..i][m].hash == GENESIS;
      assert a[m].hash == GENESIS;
    }
    if HitsGenesis(b[..j]) {
      var m :| 0 <= m < j && b[..j][m].hash == GENESIS;
      assert b[m].hash == GENESIS;
    }
  }

  /** Changing, reordering or removing rows under an unchanged last hash is noticed, short of a failure of the hash. */
  lemma TamperingIsNoticed(original: seq<EventRow>, tampered: seq<EventRow>, sha: Hash)
    requires FixedLength(sha) && Verifies(original, sha) && tampered != original
        && LastHash(tampered) == LastHash(original)
    requires !Collide(original, tampered, sha) && !HitsGenesis(original) && !HitsGenesis(tampered)
    ensures !Verifies(tampered, sha)
  {
    if Verifies(tampered, sha) {
      SameTailSameTable(original, tampered, sha);
    }
  }
}
