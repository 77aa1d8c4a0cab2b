/**
 remove_similar_songs: walks the songs in input order, keeping a running list
 of kept songs. A song is dropped when its title AND its artist are both
 similar enough to some song already kept; the first such kept song (in the
 order it was kept) is named in an evidence record. Otherwise the song is
 kept.
 */
module Dedup {
  import opened Common
  import opened Similarity

  /** A playlist entry: video id, playlist-item id, title and artist (channel). */
  datatype Song = Song(id: string, playlistItemId: string, title: string, artist: string)

  /** Why a song was dropped: the kept song it matched and the two scores. */
  datatype Evidence = Evidence(song: Song, similarTo: Song, titleSimilarity: real, artistSimilarity: real)

  datatype Partition = Partition(kept: seq<Song>, removed: seq<Evidence>)

  /**
   The similarity measure and the two thresholds a run uses. The engine's
   properties hold for any measure; the program runs it with
   calculate_similarity and the default thresholds (`DefaultPolicy`).
   */
  datatype Policy = Policy(similarity: (string, string) -> real, titleThreshold: real, artistThreshold: real)

  const DefaultTitleThreshold: real := 0.8
  const DefaultArtistThreshold: real := 0.9

  /** The policy main() uses: calculate_similarity with thresholds 0.8 and 0.9. */
  function DefaultPolicy(matched: MatchCount): (p: Policy)
    ensures p.titleThreshold == DefaultTitleThreshold && p.artistThreshold == DefaultArtistThreshold
    ensures forall a, b :: 0.0 <= p.similarity(a, b) <= 1.0
  {
    Policy((a: string, b: string) => CalculateSimilarity(matched, a, b), DefaultTitleThreshold, DefaultArtistThreshold)
  }

  function TitleSimilarity(p: Policy, s: Song, k: Song): real {
    p.similarity(s.title, k.title)
  }

  function ArtistSimilarity(p: Policy, s: Song, k: Song): real {
    p.similarity(s.artist, k.artist)
  }

  /** Both dimensions must reach their thresholds; one alone never suffices. */
  predicate IsDuplicateOf(p: Policy, s: Song, k: Song) {
    TitleSimilarity(p, s, k) >= p.titleThreshold && ArtistSimilarity(p, s, k) >= p.artistThreshold
  }

  /** `kept[k]` is the earliest song of `kept` that `s` duplicates. */
  predicate IsFirstMatch(p: Policy, s: Song, kept: seq<Song>, k: int) {
    && 0 <= k < |kept|
    && IsDuplicateOf(p, s, kept[k])
    && forall j :: 0 <= j < k ==> !IsDuplicateOf(p, s, kept[j])
  }

  function MakeEvidence(p: Policy, s: Song, k: Song): Evidence {
    Evidence(s, k, TitleSimilarity(p, s, k), ArtistSimilarity(p, s, k))
  }

  /** The inner scan: the index of the first kept song `s` duplicates, if any. */
  function FirstMatch(p: Policy, s: Song, kept: seq<Song>): (r: Option<nat>)
    ensures r.Some? ==> IsFirstMatch(p, s, kept, r.value)
    ensures r.None? <==> forall j :: 0 <= j < |kept| ==> !IsDuplicateOf(p, s, kept[j])
    decreases |kept|
  {
    if |kept| == 0 then None
    else if IsDuplicateOf(p, s, kept[0]) then Some(0)
    else match FirstMatch(p, s, kept[1..])
      case None => None
      case Some(k) => Some(k + 1)
  }

  /**
   One iteration of the outer loop: `s` goes to exactly one of the two
   lists, and both only grow at the end.
   */
  function Step(p: Policy, acc: Partition, s: Song): (r: Partition)
    ensures acc.kept <= r.kept && acc.removed <= r.removed
    ensures |r.kept| + |r.removed| == |acc.kept| + |acc.removed| + 1
  {
    match FirstMatch(p, s, acc.kept)
    case None => Partition(acc.kept + [s], acc.removed)
    case Some(k) => Partition(acc.kept, acc.removed + [MakeEvidence(p, s, acc.kept[k])])
  }

  /** What one step does to the two lists. */
  lemma StepShape(p: Policy, acc: Partition, s: Song)
    ensures FirstMatch(p, s, acc.kept).None? ==> Step(p, acc, s) == Partition(acc.kept + [s], acc.removed)
    ensures FirstMatch(p, s, acc.kept).Some? ==>
              Step(p, acc, s) == Partition(acc.kept, acc.removed + [MakeEvidence(p, s, acc.kept[FirstMatch(p, s, acc.kept).value])])
  {
  }

  /**
   What one iteration decides. A song that duplicates no kept song is
   appended to the kept list and nothing else changes. A song whose first
   duplicate among the kept songs is `acc.kept[k]` leaves the kept list
   alone and appends exactly one evidence record, naming the song and
   `acc.kept[k]` with both scores.
   */
  lemma StepDecides(p: Policy, acc: Partition, s: Song)
    ensures (forall j :: 0 <= j < |acc.kept| ==> !IsDuplicateOf(p, s, acc.kept[j])) ==>
              Step(p, acc, s) == Partition(acc.kept + [s], acc.removed)
    ensures forall k :: IsFirstMatch(p, s, acc.kept, k) ==>
              Step(p, acc, s) == Partition(acc.kept, acc.removed + [MakeEvidence(p, s, acc.kept[k])])
    ensures var r := Step(p, acc, s);
            r.kept == acc.kept + [s] <==> forall j :: 0 <= j < |acc.kept| ==> !IsDuplicateOf(p, s, acc.kept[j])
    ensures var r := Step(p, acc, s);
            |r.removed| > |acc.removed| ==>
              var e := r.removed[|acc.removed|];
              e.song == s && e.similarTo in acc.kept && IsDuplicateOf(p, s, e.similarTo)
  {
    var r := Step(p, acc, s);
    if r.kept == acc.kept + [s] {
      assert |r.kept| > |acc.kept|;
    }
    forall k | IsFirstMatch(p, s, acc.kept, k)
      ensures r == Partition(acc.kept, acc.removed + [MakeEvidence(p, s, acc.kept[k])])
    {
      var m := FirstMatch(p, s, acc.kept);
      assert !(forall j :: 0 <= j < |acc.kept| ==> !IsDuplicateOf(p, s, acc.kept[j]));
      FirstMatchUnique(p, s, acc.kept, k, m.value);
    }
  }

  /** The first duplicate is unique. */
  lemma FirstMatchUnique(p: Policy, s: Song, kept: seq<Song>, k: int, m: int)
    requires IsFirstMatch(p, s, kept, k) && IsFirstMatch(p, s, kept, m)
    ensures k == m
  {
  }

  /** remove_similar_songs: every song ends up either kept or removed, never both. */
  function RemoveSimilarSongs(p: Policy, songs: seq<Song>): (r: Partition)
    ensures |r.kept| + |r.removed| == |songs|
    ensures |songs| == 0 ==> r.kept == [] && r.removed == []
    decreases |songs|
  {
    if |songs| == 0 then Partition([], [])
    else Step(p, RemoveSimilarSongs(p, songs[..|songs| - 1]), songs[|songs| - 1])
  }

  /** For each input song, whether the algorithm keeps it. */
  function KeepFlags(p: Policy, songs: seq<Song>): (f: seq<bool>)
    ensures |f| == |songs|
    decreases |songs|
  {
    if |songs| == 0 then []
    else
      var prefix := songs[..|songs| - 1];
      KeepFlags(p, prefix) + [FirstMatch(p, songs[|songs| - 1], RemoveSimilarSongs(p, prefix).kept).None?]
  }

  function RemovedSongs(removed: seq<Evidence>): (r: seq<Song>)
    ensures |r| == |removed|
    ensures forall i :: 0 <= i < |removed| ==> r[i] == removed[i].song
  {
    seq(|removed|, i requires 0 <= i < |removed| => removed[i].song)
  }

  /**
   `r` splits `songs` by the flags `f`: the kept songs are exactly the
   flagged songs and the removed songs exactly the unflagged ones, each in
   input order.
   */
  predicate SplitsBy(songs: seq<Song>, f: seq<bool>, r: Partition)
    requires |f| == |songs|
  {
    r.kept == Select(songs, f, true) && RemovedSongs(r.removed) == Select(songs, f, false)
  }

  /** One step extends a split of the prefix to a split of the prefix plus the new song. */
  lemma SplitsBySnoc(p: Policy, prefix: seq<Song>, fp: seq<bool>, acc: Partition, s: Song)
    requires |fp| == |prefix| && SplitsBy(prefix, fp, acc)
    ensures SplitsBy(prefix + [s], fp + [FirstMatch(p, s, acc.kept).None?], Step(p, acc, s))
  {
    var songs := prefix + [s];
    var f := fp + [FirstMatch(p, s, acc.kept).None?];
    var n := |prefix|;
    var r := Step(p, acc, s);
    assert songs[..n] == prefix && f[..n] == fp;
    assert songs[..n + 1] == songs && f[..n + 1] == f;
    SelectSnoc(songs, f, true, n);
    SelectSnoc(songs, f, false, n);
    StepShape(p, acc, s);
    if !f[n] {
      assert RemovedSongs(r.removed) == RemovedSongs(acc.removed) + [s];
    }
  }

  /**
   The result splits the input by the keep flags, so every input song lands
   in exactly one of the two lists and both keep the input order.
   */
  lemma {:induction false} PartitionSplitsInput(p: Policy, songs: seq<Song>)
    ensures SplitsBy(songs, KeepFlags(p, songs), RemoveSimilarSongs(p, songs))
    decreases |songs|
  {
    if |songs| > 0 {
      var n := |songs| - 1;
      var prefix := songs[..n];
      PartitionSplitsInput(p, prefix);
      assert songs == prefix + [songs[n]];
      SplitsBySnoc(p, prefix, KeepFlags(p, prefix), RemoveSimilarSongs(p, prefix), songs[n]);
    }
  }

  /** Each input song lands in exactly one of the two lists: as multisets they add up to the input. */
  lemma PartitionPreservesSongs(p: Policy, songs: seq<Song>)
    ensures var r := RemoveSimilarSongs(p, songs);
            multiset(r.kept) + multiset(RemovedSongs(r.removed)) == multiset(songs)
  {
    PartitionSplitsInput(p, songs);
    SelectPartitions(songs, KeepFlags(p, songs));
  }

  /** No song of `kept` duplicates one kept before it. */
  predicate NoMergeablePair(p: Policy, kept: seq<Song>) {
    forall i, j :: 0 <= i < j < |kept| ==> !IsDuplicateOf(p, kept[j], kept[i])
  }

  /** One step keeps the kept list free of mergeable pairs. */
  lemma MergeableStep(p: Policy, acc: Partition, s: Song)
    requires NoMergeablePair(p, acc.kept)
    ensures NoMergeablePair(p, Step(p, acc, s).kept)
  {
    var kept := Step(p, acc, s).kept;
    StepShape(p, acc, s);
    var isNew := FirstMatch(p, s, acc.kept).None?;
    assert kept == if isNew then acc.kept + [s] else acc.kept;
    forall i, j | 0 <= i < j < |kept|
      ensures !IsDuplicateOf(p, kept[j], kept[i])
    {
      if j == |acc.kept| {
        assert kept[j] == s && kept[i] == acc.kept[i];
      } else {
        assert kept[j] == acc.kept[j] && kept[i] == acc.kept[i];
      }
    }
  }

  /** No two kept songs would have been merged: a later one never duplicates an earlier one. */
  lemma {:induction false} KeptNeverMergeable(p: Policy, songs: seq<Song>)
    ensures NoMergeablePair(p, RemoveSimilarSongs(p, songs).kept)
    decreases |songs|
  {
    if |songs| > 0 {
      var n := |songs| - 1;
      KeptNeverMergeable(p, songs[..n]);
      MergeableStep(p, RemoveSimilarSongs(p, songs[..n]), songs[n]);
    }
  }

  /**
   Every evidence record of `r` names the FIRST song of `r.kept` that the
   removed song duplicates, and carries the two scores against it.
   */
  predicate EvidenceJustified(p: Policy, r: Partition) {
    forall t :: 0 <= t < |r.removed| ==>
      exists k :: 0 <= k < |r.kept| && IsFirstMatch(p, r.removed[t].song, r.kept, k)
               && r.removed[t] == MakeEvidence(p, r.removed[t].song, r.kept[k])
  }

  /**
   First match wins: every evidence record names the first song of the
   final kept list that the removed song duplicates (not the best-scoring
   one), so both thresholds were met against a song that stays kept.
   */
  lemma {:induction false} EvidenceNamesFirstMatch(p: Policy, songs: seq<Song>)
    ensures EvidenceJustified(p, RemoveSimilarSongs(p, songs))
    decreases |songs|
  {
    if |songs| > 0 {
      var n := |songs| - 1;
      EvidenceNamesFirstMatch(p, songs[..n]);
      EvidenceStep(p, RemoveSimilarSongs(p, songs[..n]), songs[n]);
    }
  }

  /** One step keeps every evidence record naming the first kept song it duplicates. */
  lemma EvidenceStep(p: Policy, acc: Partition, s: Song)
    requires EvidenceJustified(p, acc)
    ensures EvidenceJustified(p, Step(p, acc, s))
  {
    var r := Step(p, acc, s);
    StepShape(p, acc, s);
    forall t | 0 <= t < |r.removed|
      ensures exists k :: 0 <= k < |r.kept| && IsFirstMatch(p, r.removed[t].song, r.kept, k)
                       && r.removed[t] == MakeEvidence(p, r.removed[t].song, r.kept[k])
    {
      var e := r.removed[t];
      if t < |acc.removed| {
        assert e == acc.removed[t];
        var k :| 0 <= k < |acc.kept| && IsFirstMatch(p, e.song, acc.kept, k) && e == MakeEvidence(p, e.song, acc.kept[k]);
        assert r.kept[k] == acc.kept[k];
        assert IsFirstMatch(p, e.song, r.kept, k);
      } else {
        var k := FirstMatch(p, s, acc.kept).value;
        assert e == MakeEvidence(p, s, acc.kept[k]);
        assert r.kept[k] == acc.kept[k];
        assert IsFirstMatch(p, e.song, r.kept, k);
      }
    }
  }

  /** Dropping the last song drops the last flag. */
  lemma KeepFlagsDropLast(p: Policy, songs: seq<Song>)
    requires |songs| > 0
    ensures KeepFlags(p, songs[..|songs| - 1]) == KeepFlags(p, songs)[..|songs| - 1]
  {
  }

  /** The keep flags of a prefix are a prefix of the keep flags. */
  lemma {:induction false} KeepFlagsOfPrefix(p: Policy, songs: seq<Song>, i: nat)
    requires i <= |songs|
    ensures KeepFlags(p, songs[..i]) == KeepFlags(p, songs)[..i]
    decreases |songs| - i
  {
    if i < |songs| {
      KeepFlagsOfPrefix(p, songs, i + 1);
      KeepFlagsDropLast(p, songs[..i + 1]);
      assert songs[..i + 1][..i] == songs[..i];
      assert KeepFlags(p, songs)[..i + 1][..i] == KeepFlags(p, songs)[..i];
    } else {
      assert songs[..i] == songs;
    }
  }

  /** Processing more songs only appends to both output lists. */
  lemma {:induction false} ListsGrowByAppending(p: Policy, songs: seq<Song>, i: nat)
    requires i <= |songs|
    ensures RemoveSimilarSongs(p, songs[..i]).kept <= RemoveSimilarSongs(p, songs).kept
    ensures RemoveSimilarSongs(p, songs[..i]).removed <= RemoveSimilarSongs(p, songs).removed
    decreases |songs| - i
  {
    if i < |songs| {
      ListsGrowByAppending(p, songs, i + 1);
      StepAfterPrefix(p, songs, i);
      var early := RemoveSimilarSongs(p, songs[..i]);
      var next := RemoveSimilarSongs(p, songs[..i + 1]);
      var r := RemoveSimilarSongs(p, songs);
      PrefixTransitive(early.kept, next.kept, r.kept);
      PrefixTransitive(early.removed, next.removed, r.removed);
    } else {
      assert songs[..i] == songs;
    }
  }

  /** Processing more songs only appends to both output lists, and earlier keep decisions stand. */
  lemma OutputGrowsByAppending(p: Policy, songs: seq<Song>, i: nat)
    requires i <= |songs|
    ensures RemoveSimilarSongs(p, songs[..i]).kept <= RemoveSimilarSongs(p, songs).kept
    ensures RemoveSimilarSongs(p, songs[..i]).removed <= RemoveSimilarSongs(p, songs).removed
    ensures KeepFlags(p, songs[..i]) == KeepFlags(p, songs)[..i]
  {
    ListsGrowByAppending(p, songs, i);
    KeepFlagsOfPrefix(p, songs, i);
  }

  /**
   The decision for the song at position i, stated through the flags alone:
   the songs kept before it form a prefix of the final kept list, and the
   song is kept exactly when it duplicates none of them.
   */
  lemma DecisionAtEachSong(p: Policy, songs: seq<Song>, i: nat)
    requires i < |songs|
    ensures var f := KeepFlags(p, songs);
            var before := Select(songs[..i], f[..i], true);
            && before <= RemoveSimilarSongs(p, songs).kept
            && (f[i] <==> forall k :: 0 <= k < |before| ==> !IsDuplicateOf(p, songs[i], before[k]))
  {
    var f := KeepFlags(p, songs);
    OutputGrowsByAppending(p, songs, i);
    OutputGrowsByAppending(p, songs, i + 1);
    PartitionSplitsInput(p, songs[..i]);
    assert songs[..i + 1][..i] == songs[..i];
    assert f[i] == KeepFlags(p, songs[..i + 1])[i];
  }

  /** The partition of one more song is one more step. */
  lemma StepAfterPrefix(p: Policy, songs: seq<Song>, i: nat)
    requires i < |songs|
    ensures RemoveSimilarSongs(p, songs[..i + 1]) == Step(p, RemoveSimilarSongs(p, songs[..i]), songs[i])
  {
    assert songs[..i + 1][..i] == songs[..i];
  }

  /**
   The loop of remove_similar_songs as written: an outer loop over the songs
   and an inner loop over the kept list that stops at the first match. It
   computes exactly the partition defined above.
   */
  method RemoveSimilarSongsLoop(p: Policy, songs: seq<Song>) returns (filtered: seq<Song>, removed: seq<Evidence>)
    ensures Partition(filtered, removed) == RemoveSimilarSongs(p, songs)
    ensures |filtered| + |removed| == |songs|
  {
    filtered := [];
    removed := [];
    var i := 0;
    while i < |songs|
      invariant 0 <= i <= |songs|
      invariant Partition(filtered, removed) == RemoveSimilarSongs(p, songs[..i])
    {
      StepAfterPrefix(p, songs, i);
      var song := songs[i];
      var first := FindFirstMatch(p, song, filtered);
      match first {
        case None =>
          filtered := filtered + [song];
        case Some(j) =>
          removed := removed + [MakeEvidence(p, song, filtered[j])];
      }
      i := i + 1;
    }
    assert songs[..i] == songs;
  }

  /** The inner loop as written: scan the kept songs and stop at the first one `song` duplicates. */
  method FindFirstMatch(p: Policy, song: Song, filtered: seq<Song>) returns (r: Option<nat>)
    ensures r == FirstMatch(p, song, filtered)
  {
    var j := 0;
    while j < |filtered|
      invariant 0 <= j <= |filtered|
      invariant forall k :: 0 <= k < j ==> !IsDuplicateOf(p, song, filtered[k])
    {
      var titleSimilarity := p.similarity(song.title, filtered[j].title);
      var artistSimilarity := p.similarity(song.artist, filtered[j].artist);
      if titleSimilarity >= p.titleThreshold && artistSimilarity >= p.artistThreshold {
        assert IsFirstMatch(p, song, filtered, j);
        return Some(j);
      }
      j := j + 1;
    }
    return None;
  }
}
