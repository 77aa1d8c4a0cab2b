/**
 The lookup in get_or_create_shazam_playlist: the user's listed playlists
 are scanned for the import playlist by stripped, lower-cased title, and a
 new playlist is created when none matches. The comparison is made against
 the mixed-case constant "Shazam Songs", which no lower-cased title can
 equal; `LookupAsWritten` models that comparison and `Lookup` the intended
 case-insensitive one.
 */
module PlaylistLookup {
  import opened Text

  /** The title the program searches for and gives the playlist it creates. */
  const PlaylistTitle: string := "Shazam Songs"

  /** A listed playlist: its id and its title. */
  datatype Listed = Listed(id: string, title: string)

  /** What the lookup decides: use an existing playlist, or create a new one. */
  datatype Decision = Existing(id: string) | CreateNew

  /** The first listed playlist satisfying `matches`, else `CreateNew`. */
  function FirstMatching(matches: string -> bool, listed: seq<Listed>): (d: Decision)
    ensures d.Existing? ==>
              exists k :: && 0 <= k < |listed| && listed[k].id == d.id && matches(listed[k].title)
                          && forall j :: 0 <= j < k ==> !matches(listed[j].title)
    ensures d.CreateNew? <==> forall k :: 0 <= k < |listed| ==> !matches(listed[k].title)
    decreases |listed|
  {
    if |listed| == 0 then CreateNew
    else if matches(listed[0].title) then Existing(listed[0].id)
    else
      var d := FirstMatching(matches, listed[1..]);
      assert forall k :: 1 <= k < |listed| ==> listed[k] == listed[1..][k - 1];
      d
  }

  /** The comparison as written: the stripped, lower-cased title against "Shazam Songs". */
  predicate MatchesAsWritten(title: string) {
    ToLower(Strip(title)) == PlaylistTitle
  }

  /** The intended comparison: both sides lower-cased. */
  predicate Matches(title: string) {
    ToLower(Strip(title)) == ToLower(PlaylistTitle)
  }

  function LookupAsWritten(listed: seq<Listed>): Decision {
    FirstMatching(MatchesAsWritten, listed)
  }

  function Lookup(listed: seq<Listed>): Decision {
    FirstMatching(Matches, listed)
  }

  /** A lower-cased string holds no upper-case letter, so it never equals "Shazam Songs". */
  lemma NoTitleMatchesAsWritten(title: string)
    ensures !MatchesAsWritten(title)
  {
    var t := Strip(title);
    ToLowerAt(t);
    if |t| > 0 {
      assert ToLower(t)[0] == LowerChar(t[0]);
    }
  }

  /**
   As written, the lookup never finds a playlist: even when the user already
   has one titled exactly "Shazam Songs", a new one is created on every run.
   */
  lemma {:induction false} LookupAsWrittenAlwaysCreates(listed: seq<Listed>)
    ensures LookupAsWritten(listed) == CreateNew
  {
    forall k | 0 <= k < |listed|
      ensures !MatchesAsWritten(listed[k].title)
    {
      NoTitleMatchesAsWritten(listed[k].title);
    }
  }

  /** A title without surrounding white space is its own stripped form. */
  lemma StripUnpadded(s: string)
    requires |s| > 0 && !IsSpace(s[0]) && !IsSpace(s[|s| - 1])
    ensures Strip(s) == s
  {
    var r := Strip(s);
    var lo, hi :| && 0 <= lo <= hi <= |s|
                  && r == s[lo..hi]
                  && (forall i :: 0 <= i < lo ==> IsSpace(s[i]))
                  && (forall i :: hi <= i < |s| ==> IsSpace(s[i]));
    assert lo == 0 && hi == |s|;
  }

  /**
   With both sides lower-cased, a playlist the program created itself (or
   one with the same title) is found, and the first such playlist is used.
   */
  lemma FindsOwnPlaylist(listed: seq<Listed>, k: nat)
    requires k < |listed| && listed[k].title == PlaylistTitle
    ensures Lookup(listed).Existing?
  {
    StripUnpadded(PlaylistTitle);
    assert Matches(listed[k].title);
  }
}
