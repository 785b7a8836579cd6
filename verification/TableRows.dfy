/** Rows of ascending entries with a key between each and the next: what an index of
    shortened separators may and may not miss (table/table_builder.cc, table/table.cc). */
module TableRows {
  import opened DbFormat
  import opened BlockFormat
  import opened Blocks
  import opened Comparators

  function Flat(rows: seq<seq<KeyValue>>): seq<KeyValue> {
    if rows == [] then [] else Flat(rows[..|rows| - 1]) + rows[|rows| - 1]
  }

  /** Strictly ascending internal keys. */
  ghost predicate Ascending(es: seq<KeyValue>) {
    && (forall i :: 0 <= i < |es| ==> IsInternal(es[i].key))
    && (forall i, j :: 0 <= i < j < |es| ==> InternalLess(es[i].key, es[j].key))
  }

  function LastKey(row: seq<KeyValue>): Bytes
    requires row != []
  {
    row[|row| - 1].key
  }

  /** The separator is the shortened one between the last key of its row and the first of the
      next; behind the last row it is the short successor. */
  predicate Separates(rows: seq<seq<KeyValue>>, b: nat, sep: Bytes)
    requires b < |rows| && rows[b] != [] && (b + 1 < |rows| ==> rows[b + 1] != [])
  {
    && Between(rows, b, sep)
    && sep == if b + 1 < |rows| then SeparatorOf(LastKey(rows[b]), rows[b + 1][0].key) else SuccessorOf(LastKey(rows[b]))
  }

  /** It is the last key of its row, or its user key lies strictly between those of its row
      and of the next. */
  predicate Between(rows: seq<seq<KeyValue>>, b: nat, sep: Bytes)
    requires b < |rows| && rows[b] != [] && (b + 1 < |rows| ==> rows[b + 1] != [])
  {
    sep == LastKey(rows[b]) ||
    (&& LexLess(UserPart(LastKey(rows[b])), UserPart(sep))
     && (b + 1 < |rows| ==> LexLess(UserPart(sep), UserPart(rows[b + 1][0].key))))
  }

  function SeparatorOf(last: Bytes, next: Bytes): Bytes {
    Shortened(last, Separator(UserPart(last), UserPart(next)))
  }

  function SuccessorOf(last: Bytes): Bytes {
    Shortened(last, Successor(UserPart(last)))
  }

  ghost predicate Indexed(rows: seq<seq<KeyValue>>, seps: seq<KeyValue>) {
    && |seps| <= |rows|
    && (forall b :: 0 <= b < |rows| ==> rows[b] != [])
    && (forall b :: 0 <= b < |seps| ==> Separates(rows, b, seps[b].key))
  }

  /** The entries before row `b`, the row, and what starts with the next. */
  lemma {:induction false} FlatSplit(rows: seq<seq<KeyValue>>, b: nat) returns (after: seq<KeyValue>)
    requires b < |rows|
    ensures Flat(rows) == Flat(rows[..b]) + rows[b] + after
    ensures (b + 1 == |rows| ==> after == []) && (b + 1 < |rows| ==> rows[b + 1] <= after)
    decreases |rows|
  {
    var n := |rows| - 1;
    if b == n {
      after := [];
    } else {
      var mid := FlatSplit(rows[..n], b);
      assert rows[..n][..b] == rows[..b];
      after := mid + rows[n];
    }
  }

  lemma {:induction false} FlatEnd(rows: seq<seq<KeyValue>>, b: nat)
    requires 0 < b <= |rows| && rows[b - 1] != []
    ensures var before := Flat(rows[..b]); before != [] && before[|before| - 1].key == LastKey(rows[b - 1])
  {
    assert rows[..b][..b - 1] == rows[..b - 1];
  }

  lemma PrefixBelow(es: seq<KeyValue>, target: Bytes, p: nat)
    requires Ascending(es) && p < |es| && InternalLess(es[p].key, target)
    ensures AllBelow(es, InternalLess, target, p + 1)
  {
    forall i | 0 <= i < p + 1 ensures InternalLess(es[i].key, target) {
      InternalOrder(es[i].key, es[p].key, target);
    }
  }

  lemma SeparatorAtLeastLast(rows: seq<seq<KeyValue>>, b: nat, sep: Bytes, target: Bytes)
    requires b < |rows| && rows[b] != [] && (b + 1 < |rows| ==> rows[b + 1] != [])
    requires Between(rows, b, sep) && InternalLess(sep, target)
    ensures InternalLess(LastKey(rows[b]), target)
  {
    InternalOrder(LastKey(rows[b]), sep, target);
  }

  /** All rows before the one that the index points out lie below the target. */
  lemma RowsBelow(rows: seq<seq<KeyValue>>, seps: seq<KeyValue>, target: Bytes, b: nat)
    requires Ascending(Flat(rows)) && Indexed(rows, seps) && b <= |seps|
    requires b > 0 ==> InternalLess(seps[b - 1].key, target)
    ensures Flat(rows[..b]) <= Flat(rows)
    ensures AllBelow(Flat(rows), InternalLess, target, |Flat(rows[..b])|)
  {
    FlatPrefix(rows, b);
    if b > 0 {
      SeparatorAtLeastLast(rows, b - 1, seps[b - 1].key, target);
      FlatEnd(rows, b);
      PrefixBelow(Flat(rows), target, |Flat(rows[..b])| - 1);
    }
  }

  lemma FlatPrefix(rows: seq<seq<KeyValue>>, b: nat)
    requires b <= |rows|
    ensures Flat(rows[..b]) <= Flat(rows)
  {
    if b < |rows| {
      var after := FlatSplit(rows, b);
    } else {
      assert rows[..b] == rows;
    }
  }

  /** When the target is above its row but not above the separator, the next key has
      another user key, and is at or above the target. */
  lemma BetweenRows(last: Bytes, sep: Bytes, next: Bytes, target: Bytes)
    requires InternalLess(last, target) && !InternalLess(sep, target)
    requires sep == last || LexLess(UserPart(sep), UserPart(next))
    ensures !InternalLess(next, target) && UserPart(next) != UserPart(target)
  {
    hide TagPart, UserPart;
    LexTotal(UserPart(sep), UserPart(target));
    LexTotal(UserPart(next), UserPart(target));
    LexTotal(UserPart(sep), UserPart(next));
    Chains(UserPart(target), UserPart(sep), UserPart(next));
  }

  lemma AllBelowJoins(before: seq<KeyValue>, row: seq<KeyValue>, after: seq<KeyValue>, target: Bytes, j: nat)
    requires AllBelow(before + row + after, InternalLess, target, |before|) && AllBelow(row, InternalLess, target, j)
    ensures AllBelow(before + row + after, InternalLess, target, |before| + j)
  {
    var es := before + row + after;
    forall i | 0 <= i < |before| + j ensures InternalLess(es[i].key, target) {
      if i >= |before| {
        assert es[i] == row[i - |before|];
      }
    }
  }

  /** Seeking in the row that the index points out finds the first entry at or above the
      target, or, if that entry is in the next row, shows that its user key is another. */
  lemma SeekByIndex(rows: seq<seq<KeyValue>>, seps: seq<KeyValue>, target: Bytes)
    requires Ascending(Flat(rows)) && Indexed(rows, seps) && |seps| == |rows|
    ensures var es := Flat(rows); var i := LowerBound(es, InternalLess, target);
      var b := LowerBound(seps, InternalLess, target);
      && (b == |rows| ==> i == |es|)
      && (b < |rows| ==>
            var j := LowerBound(rows[b], InternalLess, target);
            && (j < |rows[b]| ==> i < |es| && es[i] == rows[b][j])
            && (j == |rows[b]| && i < |es| ==> UserPart(es[i].key) != UserPart(target)))
  {
    hide Ascending, Indexed, AllBelow, LowerBound, InternalLess;
    var b := LowerBound(seps, InternalLess, target);
    LowerBoundSplits(seps, InternalLess, target);
    BelowAt(seps, target, b);
    RowsBelow(rows, seps, target, b);
    if b == |rows| {
      assert rows[..b] == rows;
      LowerBoundIs(Flat(rows), InternalLess, target, |Flat(rows)|);
    } else {
      SeekInRow(rows, seps, target, b);
    }
  }

  lemma BelowAt(es: seq<KeyValue>, target: Bytes, k: nat)
    requires AllBelow(es, InternalLess, target, k)
    ensures k <= |es| && (k > 0 ==> InternalLess(es[k - 1].key, target))
  {
  }

  lemma SeekInRow(rows: seq<seq<KeyValue>>, seps: seq<KeyValue>, target: Bytes, b: nat)
    requires Ascending(Flat(rows)) && Indexed(rows, seps) && b < |seps| == |rows|
    requires !InternalLess(seps[b].key, target)
    requires Flat(rows[..b]) <= Flat(rows) && AllBelow(Flat(rows), InternalLess, target, |Flat(rows[..b])|)
    ensures var es := Flat(rows); var i := LowerBound(es, InternalLess, target);
      var j := LowerBound(rows[b], InternalLess, target);
      && (j < |rows[b]| ==> i < |es| && es[i] == rows[b][j])
      && (j == |rows[b]| && i < |es| ==> UserPart(es[i].key) != UserPart(target))
  {
    hide Ascending, InternalLess, LowerBound, Flat;
    var before, row := Flat(rows[..b]), rows[b];
    var after := FlatSplit(rows, b);
    var j := LowerBound(row, InternalLess, target);
    LowerBoundSplits(row, InternalLess, target);
    AllBelowJoins(before, row, after, target, j);
    if j < |row| {
      assert (before + row + after)[|before| + j] == row[j];
    } else if after != [] {
      assert (before + row + after)[|before| + j] == after[0] == rows[b + 1][0];
      BetweenRows(LastKey(row), seps[b].key, after[0].key, target);
    }
    LowerBoundIs(Flat(rows), InternalLess, target, |before| + j);
  }

  /** Earlier rows hold smaller keys. */
  lemma RowsInOrder(rows: seq<seq<KeyValue>>, i: nat, x: nat, j: nat, y: nat)
    requires Ascending(Flat(rows)) && i < j < |rows| && x < |rows[i]| && y < |rows[j]|
    ensures InternalLess(rows[i][x].key, rows[j][y].key)
  {
    hide InternalLess, Flat;
    var es := Flat(rows);
    var after := FlatSplit(rows, j);
    assert rows[..j][..i] == rows[..i];
    var mid := FlatSplit(rows[..j], i);
    var p, q := |Flat(rows[..i])| + x, |Flat(rows[..j])| + y;
    assert es[q] == rows[j][y];
    assert es[p] == Flat(rows[..j])[p] == rows[i][x];
  }

  lemma RowAscends(rows: seq<seq<KeyValue>>, b: nat)
    requires Ascending(Flat(rows)) && b < |rows|
    ensures Ascending(rows[b])
  {
    hide InternalLess, Flat, IsInternal;
    var es := Flat(rows);
    var after := FlatSplit(rows, b);
    var p := |Flat(rows[..b])|;
    assert forall x :: 0 <= x < |rows[b]| ==> es[p + x] == rows[b][x];
  }

  lemma AscendingIsMonotone(es: seq<KeyValue>, target: Bytes)
    requires Ascending(es)
    ensures Monotone(es, InternalLess, target)
  {
    forall i, j | 0 <= i < j < |es| && InternalLess(es[j].key, target) ensures InternalLess(es[i].key, target) {
      InternalOrder(es[i].key, es[j].key, target);
    }
  }

  lemma SeparatorsAreMonotone(rows: seq<seq<KeyValue>>, seps: seq<KeyValue>, target: Bytes)
    requires Ascending(Flat(rows)) && Indexed(rows, seps)
    ensures Monotone(seps, InternalLess, target)
  {
    hide InternalLess, Flat;
    forall i, j | 0 <= i < j < |seps| && InternalLess(seps[j].key, target) ensures InternalLess(seps[i].key, target) {
      SeparatorAtLeastLast(rows, j, seps[j].key, target);
      SeparatorBelow(rows, seps, i, j);
      InternalOrder(seps[i].key, LastKey(rows[j]), target);
    }
  }

  lemma UserLess(a: Bytes, b: Bytes)
    requires LexLess(UserPart(a), UserPart(b))
    ensures InternalLess(a, b)
  {
  }

  lemma SeparatorBelow(rows: seq<seq<KeyValue>>, seps: seq<KeyValue>, i: nat, j: nat)
    requires Ascending(Flat(rows)) && Indexed(rows, seps) && i < j < |seps|
    ensures InternalLess(seps[i].key, LastKey(rows[j]))
  {
    hide Flat, Shortened, Separator, Successor, UserPart, LexLess, TagPart;
    assert Separates(rows, i, seps[i].key);
    assert Between(rows, i, seps[i].key);
    hide SeparatorOf, SuccessorOf;
    var last := |rows[j]| - 1;
    if seps[i].key == LastKey(rows[i]) {
      RowsInOrder(rows, i, |rows[i]| - 1, j, last);
    } else {
      UserLess(seps[i].key, rows[i + 1][0].key);
      if i + 1 < j {
        RowsInOrder(rows, i + 1, 0, j, last);
      } else {
        RowAscends(rows, j);
      }
      hide InternalLess;
      InternalOrder(seps[i].key, rows[i + 1][0].key, LastKey(rows[j]));
    }
  }
}
