/**
 The playlist side of index.py around the deduplication engine: turning the
 fetched playlist items into songs, sorting them by lower-cased title
 (get_playlist_songs), and counting the outcomes of the deletion calls
 (remove_videos_from_playlist). The remote calls themselves are inputs.
 */
module Playlist {
  import opened Common
  import opened Text
  import opened Dedup

  /**
   A fetched playlist item: its playlist-item id, the video id, the title,
   and the two optional channel fields of its snippet.
   */
  datatype PlaylistItem = PlaylistItem(
    id: string,
    videoId: string,
    title: string,
    videoOwnerChannelTitle: Option<string>,
    channelTitle: Option<string>)

  /** The artist: the video owner's channel, else the channel, else "Unknown". */
  function ChannelOf(item: PlaylistItem): (r: string)
    ensures item.videoOwnerChannelTitle.Some? ==> r == item.videoOwnerChannelTitle.value
    ensures item.videoOwnerChannelTitle.None? && item.channelTitle.Some? ==> r == item.channelTitle.value
    ensures item.videoOwnerChannelTitle.None? && item.channelTitle.None? ==> r == "Unknown"
  {
    match item.videoOwnerChannelTitle
    case Some(c) => c
    case None =>
      match item.channelTitle
      case Some(c) => c
      case None => "Unknown"
  }

  function ExtractSong(item: PlaylistItem): Song {
    Song(item.videoId, item.id, item.title, ChannelOf(item))
  }

  /** One song per fetched item, in fetch order. */
  function ExtractSongs(items: seq<PlaylistItem>): (r: seq<Song>)
    ensures |r| == |items|
    ensures forall i :: 0 <= i < |items| ==> r[i] == ExtractSong(items[i])
    decreases |items|
  {
    if |items| == 0 then [] else ExtractSongs(items[..|items| - 1]) + [ExtractSong(items[|items| - 1])]
  }

  /** The sort key of get_playlist_songs: the lower-cased title. */
  function SortKey(s: Song): string {
    ToLower(s.title)
  }

  predicate SortedBy(key: Song -> string, songs: seq<Song>) {
    forall i, j :: 0 <= i < j < |songs| ==> LexLe(key(songs[i]), key(songs[j]))
  }

  /** The songs whose key is `k`, in their order in `songs`. */
  function WithKey(key: Song -> string, songs: seq<Song>, k: string): (r: seq<Song>)
    ensures |r| <= |songs|
    decreases |songs|
  {
    if |songs| == 0 then []
    else WithKey(key, songs[..|songs| - 1], k) + (if key(songs[|songs| - 1]) == k then [songs[|songs| - 1]] else [])
  }

  lemma {:induction false} WithKeyAppend(key: Song -> string, a: seq<Song>, b: seq<Song>, k: string)
    ensures WithKey(key, a + b, k) == WithKey(key, a, k) + WithKey(key, b, k)
    decreases |b|
  {
    if |b| > 0 {
      var n := |b| - 1;
      assert (a + b)[..|a + b| - 1] == a + b[..n];
      WithKeyAppend(key, a, b[..n], k);
    } else {
      assert a + b == a;
    }
  }

  /**
   Inserts `s` into a sorted list after every song whose key is at most its
   own key: a song placed later in the input stays after the songs with an
   equal key, which is what makes the sort stable.
   */
  function InsertLast(key: Song -> string, sorted: seq<Song>, s: Song): (r: seq<Song>)
    ensures |r| == |sorted| + 1
    ensures multiset(r) == multiset(sorted) + multiset{s}
    decreases |sorted|
  {
    if |sorted| == 0 then [s]
    else
      var last := sorted[|sorted| - 1];
      if LexLe(key(last), key(s)) then sorted + [s]
      else
        assert sorted == sorted[..|sorted| - 1] + [last];
        InsertLast(key, sorted[..|sorted| - 1], s) + [last]
  }

  /** Every key of `songs` is at most `b`. */
  predicate KeysAtMost(key: Song -> string, songs: seq<Song>, b: string) {
    forall i :: 0 <= i < |songs| ==> LexLe(key(songs[i]), b)
  }

  lemma KeysAtMostSnoc(key: Song -> string, songs: seq<Song>, x: Song, b: string)
    requires KeysAtMost(key, songs, b) && LexLe(key(x), b)
    ensures KeysAtMost(key, songs + [x], b)
  {
    var r := songs + [x];
    forall i | 0 <= i < |r| ensures LexLe(key(r[i]), b) {
      if i < |songs| {
        assert r[i] == songs[i];
      }
    }
  }

  lemma KeysAtMostFront(key: Song -> string, songs: seq<Song>, n: nat, b: string)
    requires n <= |songs| && KeysAtMost(key, songs, b)
    ensures KeysAtMost(key, songs[..n], b)
  {
    var front := songs[..n];
    forall i | 0 <= i < |front| ensures LexLe(key(front[i]), b) {
      assert front[i] == songs[i];
    }
  }

  lemma {:induction false} InsertLastBounded(key: Song -> string, sorted: seq<Song>, s: Song, b: string)
    requires KeysAtMost(key, sorted, b) && LexLe(key(s), b)
    ensures KeysAtMost(key, InsertLast(key, sorted, s), b)
    decreases |sorted|
  {
    if |sorted| == 0 {
      assert InsertLast(key, sorted, s) == [s];
    } else if LexLe(key(sorted[|sorted| - 1]), key(s)) {
      assert InsertLast(key, sorted, s) == sorted + [s];
      KeysAtMostSnoc(key, sorted, s, b);
    } else {
      var n := |sorted| - 1;
      var front := sorted[..n];
      KeysAtMostFront(key, sorted, n, b);
      InsertLastBounded(key, front, s, b);
      var ins := InsertLast(key, front, s);
      assert InsertLast(key, sorted, s) == ins + [sorted[n]];
      KeysAtMostSnoc(key, ins, sorted[n], b);
    }
  }

  lemma {:induction false} InsertLastSorted(key: Song -> string, sorted: seq<Song>, s: Song)
    requires SortedBy(key, sorted)
    ensures SortedBy(key, InsertLast(key, sorted, s))
    decreases |sorted|
  {
    if |sorted| > 0 {
      var n := |sorted| - 1;
      var last := sorted[n];
      var front := sorted[..n];
      var kl := key(last);
      if LexLe(kl, key(s)) {
        var r := sorted + [s];
        forall i, j | 0 <= i < j < |r|
          ensures LexLe(key(r[i]), key(r[j]))
        {
          if j == n + 1 {
            if i < n {
              LexLeTransitive(key(sorted[i]), kl, key(s));
            }
          } else {
            assert r[i] == sorted[i] && r[j] == sorted[j];
          }
        }
      } else {
        assert SortedBy(key, front) by {
          forall i, j | 0 <= i < j < |front| ensures LexLe(key(front[i]), key(front[j])) {
            assert front[i] == sorted[i] && front[j] == sorted[j];
          }
        }
        InsertLastSorted(key, front, s);
        LexLeTotal(kl, key(s));
        assert KeysAtMost(key, front, kl) by {
          forall i | 0 <= i < |front| ensures LexLe(key(front[i]), kl) {
            assert front[i] == sorted[i];
          }
        }
        InsertLastBounded(key, front, s, kl);
        var ins := InsertLast(key, front, s);
        var r := ins + [last];
        assert r == InsertLast(key, sorted, s);
        forall i, j | 0 <= i < j < |r|
          ensures LexLe(key(r[i]), key(r[j]))
        {
          if j == |r| - 1 {
            assert r[i] == ins[i] && r[j] == last;
          } else {
            assert r[i] == ins[i] && r[j] == ins[j];
          }
        }
      }
    }
  }

  /** The key group of a one-song list. */
  lemma WithKeySingle(key: Song -> string, x: Song, k: string)
    ensures WithKey(key, [x], k) == if key(x) == k then [x] else []
  {
    assert [x][..0] == [];
  }

  /**
   Appending a song `last` whose key differs from `s`'s keeps the relation
   "`ins` is `front` with `s` added to its key group".
   */
  lemma GroupsBehind(key: Song -> string, front: seq<Song>, ins: seq<Song>, last: Song, s: Song, k: string)
    requires key(last) != key(s)
    requires WithKey(key, ins, k) == WithKey(key, front, k) + (if key(s) == k then [s] else [])
    ensures WithKey(key, ins + [last], k) == WithKey(key, front + [last], k) + (if key(s) == k then [s] else [])
  {
    WithKeyAppend(key, ins, [last], k);
    WithKeyAppend(key, front, [last], k);
    WithKeySingle(key, last, k);
  }

  /** Inserting `s` adds it to the end of its own key group and leaves the other groups alone. */
  lemma {:induction false} InsertLastKeepsGroups(key: Song -> string, sorted: seq<Song>, s: Song, k: string)
    ensures WithKey(key, InsertLast(key, sorted, s), k) == WithKey(key, sorted, k) + (if key(s) == k then [s] else [])
    decreases |sorted|
  {
    if |sorted| == 0 {
      WithKeySingle(key, s, k);
    } else if LexLe(key(sorted[|sorted| - 1]), key(s)) {
      assert InsertLast(key, sorted, s) == sorted + [s];
      WithKeyAppend(key, sorted, [s], k);
      WithKeySingle(key, s, k);
    } else {
      var n := |sorted| - 1;
      var front := sorted[..n];
      var ins := InsertLast(key, front, s);
      assert InsertLast(key, sorted, s) == ins + [sorted[n]];
      assert sorted == front + [sorted[n]];
      InsertLastKeepsGroups(key, front, s, k);
      NotLexLeDistinct(key(sorted[n]), key(s));
      GroupsBehind(key, front, ins, sorted[n], s, k);
    }
  }

  /**
   Python's list.sort(key=...): a stable sort, modelled as insertion of each
   song, in input order, after every song already placed whose key is not
   greater. The result is a permutation of the input, sorted by key.
   */
  function SortBy(key: Song -> string, songs: seq<Song>): (r: seq<Song>)
    ensures multiset(r) == multiset(songs)
    ensures SortedBy(key, r)
    decreases |songs|
  {
    if |songs| == 0 then []
    else
      var n := |songs| - 1;
      var front := SortBy(key, songs[..n]);
      InsertLastSorted(key, front, songs[n]);
      assert songs == songs[..n] + [songs[n]];
      assert multiset(songs) == multiset(songs[..n]) + multiset{songs[n]};
      InsertLast(key, front, songs[n])
  }

  /**
   Stability: for every key, the songs carrying that key appear in the
   sorted list in exactly the order they had in the input.
   */
  lemma {:induction false} SortByStable(key: Song -> string, songs: seq<Song>, k: string)
    ensures WithKey(key, SortBy(key, songs), k) == WithKey(key, songs, k)
    decreases |songs|
  {
    if |songs| > 0 {
      var n := |songs| - 1;
      SortByStable(key, songs[..n], k);
      InsertLastKeepsGroups(key, SortBy(key, songs[..n]), songs[n], k);
    }
  }

  /** The in-place title sort of the fetched songs: a permutation sorted by lower-cased title. */
  function SortByTitle(songs: seq<Song>): (r: seq<Song>)
    ensures multiset(r) == multiset(songs)
    ensures SortedBy(SortKey, r)
  {
    SortBy(SortKey, songs)
  }

  /** Songs whose lower-cased titles are equal keep their input order. */
  lemma SortByTitleStable(songs: seq<Song>, k: string)
    ensures WithKey(SortKey, SortByTitle(songs), k) == WithKey(SortKey, songs, k)
  {
    SortByStable(SortKey, songs, k);
  }

  /**
   get_playlist_songs: no songs when the playlist is not found; otherwise
   one song per fetched item, sorted by lower-cased title.
   */
  function GetPlaylistSongs(found: bool, items: seq<PlaylistItem>): (r: seq<Song>)
    ensures !found ==> r == []
    ensures found ==> multiset(r) == multiset(ExtractSongs(items)) && SortedBy(SortKey, r)
    ensures |r| == if found then |items| else 0
  {
    if !found then [] else SortByTitle(ExtractSongs(items))
  }

  /** The number of deletions that succeed when the i-th call (from 0) deletes ids[i]. */
  function CountDeleted(ids: seq<string>, deleted: (nat, string) -> bool): (n: nat)
    ensures n <= |ids|
    decreases |ids|
  {
    if |ids| == 0 then 0
    else CountDeleted(ids[..|ids| - 1], deleted) + (if deleted(|ids| - 1, ids[|ids| - 1]) then 1 else 0)
  }

  /**
   remove_videos_from_playlist: one delete call per id, in order; a failure
   does not stop the rest. `deleted(i, id)` is the remote outcome of the
   i-th call. Every id is attempted exactly once, and the success and
   failure counts add up to the number of ids.
   */
  method RemoveVideosFromPlaylist(ids: seq<string>, deleted: (nat, string) -> bool)
    returns (successCount: nat, failedCount: nat, attempted: seq<string>)
    ensures attempted == ids
    ensures successCount + failedCount == |ids|
    ensures successCount == CountDeleted(ids, deleted)
  {
    successCount := 0;
    failedCount := 0;
    attempted := [];
    var i := 0;
    while i < |ids|
      invariant 0 <= i <= |ids|
      invariant attempted == ids[..i]
      invariant successCount == CountDeleted(ids[..i], deleted)
      invariant successCount + failedCount == i
    {
      attempted := attempted + [ids[i]];
      if deleted(i, ids[i]) {
        successCount := successCount + 1;
      } else {
        failedCount := failedCount + 1;
      }
      assert ids[..i + 1][..i] == ids[..i];
      i := i + 1;
    }
    assert ids[..i] == ids;
  }
}
