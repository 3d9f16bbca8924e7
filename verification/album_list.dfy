/** The `AlbumList` class: the album set rebuilt from the queue, album
    boundaries, random album choice and `play_random`. The MPD client is
    replaced by the playlist value it would report. */
module AlbumList {
  import opened Wrappers
  import opened Playlist

  /** The state the class keeps between calls: the album set of its last
      refresh. */
  datatype AlbumList = AlbumList(albums: set<string>)

  /** The album names a scan of the queue collects: one per tagged song,
      normalised, untagged songs skipped. */
  function CollectAlbums(p: seq<Song>): (albums: set<string>)
    ensures forall name :: name in albums <==> HasAlbum(p, name)
    decreases |p|
  {
    if |p| == 0 then {}
    else
      var front := p[..|p| - 1];
      assert forall i :: 0 <= i < |front| ==> front[i] == p[i];
      var last := p[|p| - 1];
      CollectAlbums(front) + (if last.album.Some? then {Normalise(last.album.value)} else {})
  }

  /** `refresh`: the album set is replaced wholesale by the albums of the
      current queue; whatever the list held before plays no part. */
  function Refresh(list: AlbumList, p: seq<Song>): (r: AlbumList)
    ensures forall name :: name in r.albums <==> HasAlbum(p, name)
    ensures forall i :: 0 <= i < |p| && p[i].album.Some? ==> Normalise(p[i].album.value) in r.albums
  {
    AlbumList(CollectAlbums(p))
  }

  /** Refreshing twice against an unchanged queue gives the same album set,
      and the result does not depend on the state before. */
  lemma RefreshIdempotent(list: AlbumList, other: AlbumList, p: seq<Song>)
    ensures Refresh(Refresh(list, p), p) == Refresh(list, p)
    ensures Refresh(list, p) == Refresh(other, p)
  {
  }

  /** Untagged songs never influence the album set: removing or adding them
      leaves it unchanged. */
  lemma {:induction false} UntaggedIgnored(list: AlbumList, p: seq<Song>, q: seq<Song>)
    requires forall i :: 0 <= i < |q| ==> q[i].album.None?
    ensures Refresh(list, p + q) == Refresh(list, p)
    ensures Refresh(list, q + p) == Refresh(list, p)
  {
    var a, b, c := Refresh(list, p + q).albums, Refresh(list, q + p).albums, Refresh(list, p).albums;
    forall name | name in a ensures name in c {
      var i :| 0 <= i < |p + q| && Matches((p + q)[i], name);
      assert i < |p|;
      assert p[i] == (p + q)[i];
    }
    forall name | name in c ensures name in a && name in b {
      var i :| 0 <= i < |p| && Matches(p[i], name);
      assert (p + q)[i] == p[i];
      assert (q + p)[|q| + i] == p[i];
    }
    forall name | name in b ensures name in c {
      var i :| 0 <= i < |q + p| && Matches((q + p)[i], name);
      assert i >= |q|;
      assert p[i - |q|] == (q + p)[i];
    }
  }

  /** First and last position of an album, as `find_album_boundaries`
      returns them; None plays the part of `(None, None)`. */
  datatype Bounds = Bounds(first: nat, last: nat)

  /** `find_album_boundaries`: the positions of the first and last entry
      `playlistfind` reports. */
  function FindAlbumBoundaries(p: seq<Song>, name: string): (r: Option<Bounds>)
    ensures r.None? <==> !HasAlbum(p, name)
    ensures r.Some? ==> r.value.first <= r.value.last < |p|
    ensures r.Some? ==> Matches(p[r.value.first], name) && Matches(p[r.value.last], name)
    ensures r.Some? ==> forall i :: 0 <= i < |p| && Matches(p[i], name) ==> r.value.first <= i <= r.value.last
  {
    var entries := Positions(p, name);
    if |entries| > 0 then
      assert entries[0] <= entries[|entries| - 1] by {
        if |entries| > 1 { assert entries[0] < entries[|entries| - 1]; }
      }
      assert forall i :: 0 <= i < |p| && Matches(p[i], name) ==> entries[0] <= i <= entries[|entries| - 1] by {
        forall i | 0 <= i < |p| && Matches(p[i], name) ensures entries[0] <= i <= entries[|entries| - 1] {
          var j :| 0 <= j < |entries| && entries[j] == i;
          if j > 0 { assert entries[0] < entries[j]; }
          if j < |entries| - 1 { assert entries[j] < entries[|entries| - 1]; }
        }
      }
      Some(Bounds(entries[0], entries[|entries| - 1]))
    else
      None
  }

  /** The position `play_random` passes to `play`: that of the first entry
      `playlistfind` reports, i.e. the smallest matching position. */
  function FirstPosition(p: seq<Song>, name: string): (r: Option<nat>)
    ensures r.None? <==> !HasAlbum(p, name)
    ensures r.Some? ==> r.value < |p| && Matches(p[r.value], name)
    ensures r.Some? ==> forall i :: 0 <= i < r.value ==> !Matches(p[i], name)
  {
    var entries := Positions(p, name);
    if |entries| > 0 then
      Some(entries[0])
    else
      None
  }

  /** Why reading the current album can fail. */
  datatype Error = NothingPlaying | NoAlbumTag

  /** `get_current_album`: the raw album tag of the playing song, not
      normalised. Nothing playing, or a song without album tag, makes the
      dictionary lookup raise. */
  function GetCurrentAlbum(current: Option<Song>): (r: Result<Tag, Error>)
    ensures r.Ok? <==> current.Some? && current.value.album.Some?
    ensures r.Ok? ==> r.value == current.value.album.value
    ensures r == Err(NothingPlaying) <==> current.None?
  {
    match current
    case None => Err(NothingPlaying)
    case Some(song) =>
      match song.album
      case None => Err(NoAlbumTag)
      case Some(tag) => Ok(tag)
  }

  /** `choose_random_album`: None for an empty set; `current` itself, as
      passed, when the set has one album; otherwise some album of the set
      other than `current`. The rejection loop over `random.choice` is
      replaced by the choice it ends with. */
  method ChooseRandomAlbum(albums: set<string>, current: Tag) returns (r: Option<Tag>)
    ensures r.None? <==> albums == {}
    ensures |albums| == 1 ==> r == Some(current)
    ensures |albums| >= 2 ==> r.Some? && r.value.Single? && r.value.name in albums && r.value != current
  {
    if albums == {} {
      return None;
    }
    if |albums| == 1 {
      return Some(current);
    }
    var x :| x in albums;
    if Single(x) == current {
      assert |albums - {x}| == |albums| - 1;
      var y :| y in albums - {x};
      x := y;
    }
    return Some(Single(x));
  }

  /** What one attempt of `play_random` does: play from a position, find
      that the chosen album has vanished from the queue (the source then
      refreshes and tries again), or find no albums at all. */
  datatype PlayOutcome = PlayAt(album: Tag, pos: nat) | AlbumVanished(album: Tag) | EmptyPlaylist

  /** One attempt of `play_random`: read the current album, choose another,
      and play the first song `playlistfind` reports for it. */
  method PlayRandom(list: AlbumList, p: seq<Song>, current: Option<Song>) returns (r: Result<PlayOutcome, Error>)
    ensures r.Err? <==> GetCurrentAlbum(current).Err?
    ensures r.Err? ==> r.error == GetCurrentAlbum(current).error
    ensures r == Ok(EmptyPlaylist) <==> GetCurrentAlbum(current).Ok? && list.albums == {}
    ensures r.Ok? && r.value.PlayAt? ==>
      && r.value.pos < |p|
      && Matches(p[r.value.pos], Normalise(r.value.album))
      && forall i :: 0 <= i < r.value.pos ==> !Matches(p[i], Normalise(r.value.album))
    ensures r.Ok? && r.value.AlbumVanished? ==> !HasAlbum(p, Normalise(r.value.album))
    ensures r.Ok? && !r.value.EmptyPlaylist? ==>
      var tag, chosen := GetCurrentAlbum(current).value, r.value.album;
      && (|list.albums| == 1 ==> chosen == tag)
      && (|list.albums| >= 2 ==> chosen.Single? && chosen.name in list.albums && chosen != tag)
    ensures list == Refresh(list, p) && current.Some? && current.value in p ==> !(r.Ok? && r.value.AlbumVanished?)
  {
    var got := GetCurrentAlbum(current);
    if got.Err? {
      return Err(got.error);
    }
    var chosen := ChooseRandomAlbum(list.albums, got.value);
    if chosen.None? {
      return Ok(EmptyPlaylist);
    }
    var first := FirstPosition(p, Normalise(chosen.value));
    if first.Some? {
      return Ok(PlayAt(chosen.value, first.value));
    }
    return Ok(AlbumVanished(chosen.value));
  }
}
