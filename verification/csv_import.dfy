/**
 import_songs_from_csv: after the first row, every row with at least four
 fields contributes the pair (column C, column D) = (row[2], row[3]) unless
 one of the two is empty or the pair is a repeated header ("title",
 "artist" after stripping and lower-casing). Pairs are deduplicated by exact
 equality, keeping the first occurrence. Tokenising the file into rows is
 not part of this model: the rows arrive already split into fields.
 */
module CsvImport {
  import opened Common
  import opened Text

  /** A (title, artist) pair read from the file. */
  datatype Query = Query(title: string, artist: string)

  /** Both fields, stripped and lower-cased, spell the header words. */
  predicate IsHeaderLike(title: string, artist: string) {
    ToLower(Strip(title)) == "title" && ToLower(Strip(artist)) == "artist"
  }

  /** A data row that contributes a pair: enough columns, both values present, not a header. */
  predicate Eligible(row: seq<string>) {
    |row| >= 4 && row[2] != "" && row[3] != "" && !IsHeaderLike(row[2], row[3])
  }

  /** `row` is eligible and contributes exactly `q`. */
  predicate Yields(row: seq<string>, q: Query) {
    Eligible(row) && q == Query(row[2], row[3])
  }

  /** The running list of pairs and the set `seen` of pairs already taken. */
  datatype Scan = Scan(songs: seq<Query>, seen: set<Query>)

  /** The body of the row loop: take an eligible row's pair unless it was seen already. */
  function ScanRow(acc: Scan, row: seq<string>): Scan {
    if Eligible(row) then
      var key := Query(row[2], row[3]);
      if key !in acc.seen then Scan(acc.songs + [key], acc.seen + {key}) else acc
    else acc
  }

  /** What one row does to the scan. */
  lemma ScanRowShape(acc: Scan, row: seq<string>)
    ensures Eligible(row) && Query(row[2], row[3]) !in acc.seen ==>
              ScanRow(acc, row) == Scan(acc.songs + [Query(row[2], row[3])], acc.seen + {Query(row[2], row[3])})
    ensures !(Eligible(row) && Query(row[2], row[3]) !in acc.seen) ==> ScanRow(acc, row) == acc
  {
  }

  /** The row loop over the data rows, in order. */
  function ScanRows(data: seq<seq<string>>): (r: Scan)
    ensures |r.songs| <= |data|
    decreases |data|
  {
    if |data| == 0 then Scan([], {})
    else ScanRow(ScanRows(data[..|data| - 1]), data[|data| - 1])
  }

  /** `seen` holds exactly the pairs taken so far. */
  ghost predicate SeenIsTaken(acc: Scan) {
    forall q :: q in acc.seen <==> q in acc.songs
  }

  /** Every pair taken was contributed by some row. */
  predicate AllFromRows(data: seq<seq<string>>, songs: seq<Query>) {
    forall q :: q in songs ==> exists r :: 0 <= r < |data| && Yields(data[r], q)
  }

  /** Every eligible row's pair was taken. */
  predicate AllRowsCovered(data: seq<seq<string>>, songs: seq<Query>) {
    forall r :: 0 <= r < |data| && Eligible(data[r]) ==> Query(data[r][2], data[r][3]) in songs
  }

  /** The position of the first row contributing `q`, or |data| when no row does. */
  function FirstRow(data: seq<seq<string>>, q: Query): (k: nat)
    ensures k <= |data|
    ensures k < |data| ==> Yields(data[k], q)
    ensures forall r :: 0 <= r < k ==> !Yields(data[r], q)
    decreases |data|
  {
    if |data| == 0 then 0
    else if Yields(data[0], q) then 0
    else 1 + FirstRow(data[1..], q)
  }

  /** First-seen order: pairs appear in the order of the first row contributing each. */
  predicate FirstSeenOrder(data: seq<seq<string>>, songs: seq<Query>) {
    forall i, j :: 0 <= i < j < |songs| ==> FirstRow(data, songs[i]) < FirstRow(data, songs[j])
  }

  /** Adding a row does not move the first row of a pair some earlier row already contributes. */
  lemma FirstRowExtend(data: seq<seq<string>>, q: Query)
    requires |data| > 0
    ensures var n := |data| - 1;
            var k := FirstRow(data[..n], q);
            && (k < n ==> FirstRow(data, q) == k)
            && (k == n ==> FirstRow(data, q) == n || FirstRow(data, q) == n + 1)
            && (k == n && Yields(data[n], q) ==> FirstRow(data, q) == n)
  {
    var n := |data| - 1;
    var prefix := data[..n];
    var k := FirstRow(prefix, q);
    var k' := FirstRow(data, q);
    assert forall r :: 0 <= r < n ==> data[r] == prefix[r];
    if k < n {
      assert Yields(data[k], q);
    }
  }

  /** The scan never takes a pair twice, and `seen` tracks exactly what it took. */
  lemma {:induction false} ScanKeepsSeen(data: seq<seq<string>>)
    ensures SeenIsTaken(ScanRows(data))
    ensures NoDuplicates(ScanRows(data).songs)
    decreases |data|
  {
    if |data| > 0 {
      var n := |data| - 1;
      ScanKeepsSeen(data[..n]);
      var acc := ScanRows(data[..n]);
      var out := ScanRows(data);
      ScanRowShape(acc, data[n]);
      if out != acc {
        var q := Query(data[n][2], data[n][3]);
        assert out.songs == acc.songs + [q] && q !in acc.songs;
        forall i, j | 0 <= i < j < |out.songs|
          ensures out.songs[i] != out.songs[j]
        {
          assert out.songs[i] == acc.songs[i];
          if j < |acc.songs| {
            assert out.songs[j] == acc.songs[j];
          }
        }
      }
    }
  }

  /** A pair contributed by a row of a prefix is contributed by a row of the whole. */
  lemma FromRowsWiden(data: seq<seq<string>>, n: nat, songs: seq<Query>)
    requires n <= |data| && AllFromRows(data[..n], songs)
    ensures AllFromRows(data, songs)
  {
    forall q | q in songs
      ensures exists r :: 0 <= r < |data| && Yields(data[r], q)
    {
      var r :| 0 <= r < n && Yields(data[..n][r], q);
      assert data[r] == data[..n][r];
    }
  }

  /** Soundness: every pair taken was contributed by some row. */
  lemma {:induction false} ScanSound(data: seq<seq<string>>)
    ensures AllFromRows(data, ScanRows(data).songs)
    decreases |data|
  {
    if |data| > 0 {
      var n := |data| - 1;
      ScanSound(data[..n]);
      var acc := ScanRows(data[..n]);
      FromRowsWiden(data, n, acc.songs);
      ScanRowShape(acc, data[n]);
      var out := ScanRows(data);
      if out != acc {
        var key := Query(data[n][2], data[n][3]);
        assert out.songs == acc.songs + [key];
        assert Yields(data[n], key);
      }
    }
  }

  /** Rows of a prefix covered by a list stay covered by any extension of the list. */
  lemma CoveredWiden(data: seq<seq<string>>, n: nat, songs: seq<Query>, more: seq<Query>)
    requires n <= |data| && AllRowsCovered(data[..n], songs) && songs <= more
    ensures forall r :: 0 <= r < n && Eligible(data[r]) ==> Query(data[r][2], data[r][3]) in more
  {
    forall r | 0 <= r < n && Eligible(data[r])
      ensures Query(data[r][2], data[r][3]) in more
    {
      assert data[r] == data[..n][r];
      assert Query(data[r][2], data[r][3]) in songs;
    }
  }

  /** After an eligible row, its pair is among the pairs taken. */
  lemma ScanRowCovers(acc: Scan, row: seq<string>)
    requires SeenIsTaken(acc)
    ensures acc.songs <= ScanRow(acc, row).songs
    ensures Eligible(row) ==> Query(row[2], row[3]) in ScanRow(acc, row).songs
  {
    if Eligible(row) {
      var key := Query(row[2], row[3]);
      if key in acc.seen {
        assert key in acc.songs;
      }
    }
  }

  /** Covering the rows before the last and the last row covers them all. */
  lemma CoveredSnoc(data: seq<seq<string>>, songs: seq<Query>)
    requires |data| > 0
    requires forall r :: 0 <= r < |data| - 1 && Eligible(data[r]) ==> Query(data[r][2], data[r][3]) in songs
    requires Eligible(data[|data| - 1]) ==> Query(data[|data| - 1][2], data[|data| - 1][3]) in songs
    ensures AllRowsCovered(data, songs)
  {
  }

  /** One more row keeps every eligible row covered. */
  lemma CoveredStep(data: seq<seq<string>>, acc: Scan)
    requires |data| > 0 && SeenIsTaken(acc) && AllRowsCovered(data[..|data| - 1], acc.songs)
    ensures AllRowsCovered(data, ScanRow(acc, data[|data| - 1]).songs)
  {
    var n := |data| - 1;
    var out := ScanRow(acc, data[n]);
    ScanRowCovers(acc, data[n]);
    CoveredWiden(data, n, acc.songs, out.songs);
    CoveredSnoc(data, out.songs);
  }

  /** Completeness: every eligible row's pair was taken. */
  lemma {:induction false} ScanComplete(data: seq<seq<string>>)
    ensures AllRowsCovered(data, ScanRows(data).songs)
    decreases |data|
  {
    if |data| > 0 {
      var n := |data| - 1;
      ScanComplete(data[..n]);
      ScanKeepsSeen(data[..n]);
      CoveredStep(data, ScanRows(data[..n]));
    }
  }

  /** A pair missing from a list that covers every eligible row is contributed by no row. */
  lemma CoveredHasNoLaterFirstRow(data: seq<seq<string>>, songs: seq<Query>, q: Query)
    requires AllRowsCovered(data, songs)
    ensures q !in songs ==> FirstRow(data, q) == |data|
  {
    var k := FirstRow(data, q);
    if k < |data| {
      assert Yields(data[k], q);
    }
  }

  /**
   Pairs taken from the rows of a prefix keep their first rows, all before
   the next row, when that row is added.
   */
  lemma OrderSurvivesExtension(data: seq<seq<string>>, songs: seq<Query>)
    requires |data| > 0
    requires AllFromRows(data[..|data| - 1], songs)
    requires FirstSeenOrder(data[..|data| - 1], songs)
    ensures FirstSeenOrder(data, songs)
    ensures forall x :: x in songs ==> FirstRow(data, x) < |data| - 1
  {
    var n := |data| - 1;
    var prefix := data[..n];
    forall x | x in songs
      ensures FirstRow(data, x) == FirstRow(prefix, x) < n
    {
      var r :| 0 <= r < n && Yields(prefix[r], x);
      FirstRowExtend(data, x);
    }
    forall i, j | 0 <= i < j < |songs|
      ensures FirstRow(data, songs[i]) < FirstRow(data, songs[j])
    {
      assert songs[i] in songs && songs[j] in songs;
    }
  }

  /** Appending a pair whose first row comes after every listed pair's keeps the order. */
  lemma OrderSnoc(data: seq<seq<string>>, songs: seq<Query>, q: Query)
    requires FirstSeenOrder(data, songs)
    requires forall x :: x in songs ==> FirstRow(data, x) < FirstRow(data, q)
    ensures FirstSeenOrder(data, songs + [q])
  {
    var out := songs + [q];
    forall i, j | 0 <= i < j < |out|
      ensures FirstRow(data, out[i]) < FirstRow(data, out[j])
    {
      assert out[i] == songs[i] && songs[i] in songs;
      if j < |songs| {
        assert out[j] == songs[j];
      }
    }
  }

  /** Order: pairs appear in the order of the first row contributing each. */
  lemma {:induction false} ScanFirstSeenOrder(data: seq<seq<string>>)
    ensures FirstSeenOrder(data, ScanRows(data).songs)
    decreases |data|
  {
    if |data| > 0 {
      var n := |data| - 1;
      var prefix := data[..n];
      ScanFirstSeenOrder(prefix);
      ScanSound(prefix);
      var acc := ScanRows(prefix);
      ScanRowShape(acc, data[n]);
      OrderSurvivesExtension(data, acc.songs);
      if ScanRows(data) != acc {
        var q := Query(data[n][2], data[n][3]);
        ScanKeepsSeen(prefix);
        ScanComplete(prefix);
        CoveredHasNoLaterFirstRow(prefix, acc.songs, q);
        FirstRowExtend(data, q);
        OrderSnoc(data, acc.songs, q);
      }
    }
  }

  lemma ScanCorrect(data: seq<seq<string>>)
    ensures NoDuplicates(ScanRows(data).songs)
    ensures AllFromRows(data, ScanRows(data).songs)
    ensures AllRowsCovered(data, ScanRows(data).songs)
    ensures FirstSeenOrder(data, ScanRows(data).songs)
  {
    ScanKeepsSeen(data);
    ScanSound(data);
    ScanComplete(data);
    ScanFirstSeenOrder(data);
  }

  /** The rows after the first, which the reader skips as the header. */
  function DataRows(rows: seq<seq<string>>): (data: seq<seq<string>>)
    ensures |rows| > 0 ==> |data| == |rows| - 1 && forall i :: 0 <= i < |data| ==> data[i] == rows[i + 1]
    ensures |rows| == 0 ==> data == []
  {
    if |rows| == 0 then [] else rows[1..]
  }

  /**
   The pairs read from a file's rows, the first row skipped. The result has
   no repeated pair; every pair comes from an eligible data row (so neither
   field is empty and it is not a header); every eligible data row's pair is
   present; and pairs appear in the order of the first row contributing each.
   */
  function ImportRows(rows: seq<seq<string>>): (r: seq<Query>)
    ensures |rows| <= 1 ==> r == []
    ensures NoDuplicates(r)
    ensures AllFromRows(DataRows(rows), r)
    ensures forall q :: q in r ==> q.title != "" && q.artist != "" && !IsHeaderLike(q.title, q.artist)
    ensures AllRowsCovered(DataRows(rows), r)
    ensures FirstSeenOrder(DataRows(rows), r)
  {
    var data := DataRows(rows);
    ScanCorrect(data);
    ScanRows(data).songs
  }

  /**
   import_songs_from_csv: an empty path (after stripping) or an unreadable
   file (`file` is None) gives no pairs; otherwise the pairs of its rows.
   */
  function ImportSongsFromCsv(path: string, file: Option<seq<seq<string>>>): (r: seq<Query>)
    ensures Strip(path) == "" ==> r == []
    ensures file.None? ==> r == []
    ensures Strip(path) != "" && file.Some? ==> r == ImportRows(file.value)
  {
    if Strip(path) == "" then []
    else match file
      case None => []
      case Some(rows) => ImportRows(rows)
  }
}
