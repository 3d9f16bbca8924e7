/** The MPD queue as a plain value: a sequence of songs whose position is
    their index, and the two client commands the program relies on
    (`playlistfind` and `move`), stated as assumptions about the server. */
module Playlist {
  import opened Wrappers

  /** An album tag as the client library returns it: a single string, or a
      list of strings when the file carries the tag more than once. */
  datatype Tag = Single(name: string) | Multi(first: string, rest: seq<string>)

  /** One queue entry. `file` identifies the song; its position is its index. */
  datatype Song = Song(file: string, album: Option<Tag>)

  /** The canonical album name of a tag: the first element of a list tag. */
  function Normalise(t: Tag): string
  {
    match t
    case Single(name) => name
    case Multi(first, _) => first
  }

  /** The normalised album of a song, or None when it has no album tag. */
  function Key(s: Song): Option<string>
  {
    if s.album.Some? then Some(Normalise(s.album.value)) else None
  }

  /** The assumed meaning of `playlistfind("album", name)` for one song. */
  predicate Matches(s: Song, name: string)
  {
    Key(s) == Some(name)
  }

  /** True iff some song of the playlist carries album `name`. */
  predicate HasAlbum(p: seq<Song>, name: string)
  {
    exists i :: 0 <= i < |p| && Matches(p[i], name)
  }

  /** Positions of the songs `playlistfind("album", name)` reports, in queue
      order: exactly the matching indices, strictly increasing. */
  function Positions(p: seq<Song>, name: string): (r: seq<nat>)
    ensures forall j :: 0 <= j < |r| ==> r[j] < |p| && Matches(p[r[j]], name)
    ensures forall i :: 0 <= i < |p| && Matches(p[i], name) ==> i in r
    ensures forall j, k :: 0 <= j < k < |r| ==> r[j] < r[k]
    decreases |p|
  {
    if |p| == 0 then []
    else
      var front := p[..|p| - 1];
      assert forall i :: 0 <= i < |front| ==> front[i] == p[i];
      Positions(front, name) + (if Matches(p[|p| - 1], name) then [|p| - 1] else [])
  }

  /** The queue after `move START:END 0` with START = first, END = last + 1:
      the inclusive range goes to the front, everything else follows in its
      old order. This is the server's command, assumed here. */
  function MoveToFront(s: seq<Song>, first: nat, last: nat): (r: seq<Song>)
    requires first <= last < |s|
    ensures |r| == |s|
    ensures multiset(r) == multiset(s)
  {
    var block, before, after := s[first..last + 1], s[..first], s[last + 1..];
    assert s == before + block + after;
    calc {
      multiset(block + before + after);
      multiset(block) + multiset(before) + multiset(after);
      multiset(before + block + after);
    }
    block + before + after
  }

  /** Where each song ends up after `MoveToFront`: the range keeps its
      internal order at positions `0 .. last - first`, the songs before it
      shift back by the range's length, the songs after it stay put. */
  lemma MoveToFrontPositions(s: seq<Song>, first: nat, last: nat)
    requires first <= last < |s|
    ensures var r := MoveToFront(s, first, last);
      && (forall i :: 0 <= i <= last - first ==> r[i] == s[first + i])
      && (forall i :: 0 <= i < first ==> r[last - first + 1 + i] == s[i])
      && (forall i :: last < i < |s| ==> r[i] == s[i])
  {
  }

  /** The moved range is the front of the result, the rest its back. */
  lemma MoveToFrontSlices(s: seq<Song>, first: nat, last: nat)
    requires first <= last < |s|
    ensures var r, n := MoveToFront(s, first, last), last - first + 1;
      r[..n] == s[first..last + 1] && r[n..] == s[..first] + s[last + 1..]
  {
    HalvesOf(s[first..last + 1], s[..first] + s[last + 1..]);
  }

  /** Songs whose normalised album is in `albums`. */
  predicate InAlbums(s: Song, albums: set<string>)
  {
    Key(s).Some? && Key(s).value in albums
  }

  /** The songs of the given albums, in queue order. */
  function Select(p: seq<Song>, albums: set<string>): seq<Song>
    decreases |p|
  {
    if |p| == 0 then []
    else (if InAlbums(p[0], albums) then [p[0]] else []) + Select(p[1..], albums)
  }

  /** The songs of all other albums and the untagged songs, in queue order. */
  function Drop(p: seq<Song>, albums: set<string>): seq<Song>
    decreases |p|
  {
    if |p| == 0 then []
    else (if InAlbums(p[0], albums) then [] else [p[0]]) + Drop(p[1..], albums)
  }

  /** No song sits at `j` between two songs `i` and `k` of one album unless
      it belongs to that album too. */
  predicate NoGap(p: seq<Song>, i: nat, j: nat, k: nat)
    requires i < j < k < |p|
  {
    Key(p[i]).Some? && Key(p[i]) == Key(p[k]) ==> Key(p[j]) == Key(p[i])
  }

  /** Songs of one album occupy adjacent positions: no song of another album
      and no untagged song sits between two songs of the same album. */
  predicate Contiguous(p: seq<Song>)
  {
    forall i, j, k :: 0 <= i < j < k < |p| ==> NoGap(p, i, j, k)
  }

  /** Selecting and dropping split a playlist into two parts that together
      hold every song exactly once. */
  lemma {:induction false} SelectDropPartition(p: seq<Song>, albums: set<string>)
    ensures multiset(Select(p, albums)) + multiset(Drop(p, albums)) == multiset(p)
    decreases |p|
  {
    if |p| > 0 {
      SelectDropPartition(p[1..], albums);
      assert multiset(p) == multiset([p[0]]) + multiset(p[1..]) by {
        assert p == [p[0]] + p[1..];
      }
      if InAlbums(p[0], albums) {
        assert Select(p, albums) == [p[0]] + Select(p[1..], albums);
        assert Drop(p, albums) == Drop(p[1..], albums);
      } else {
        assert Select(p, albums) == Select(p[1..], albums);
        assert Drop(p, albums) == [p[0]] + Drop(p[1..], albums);
      }
    }
  }

  /** Selecting and dropping distribute over a playlist of three parts. */
  lemma SelectThree(a: seq<Song>, b: seq<Song>, c: seq<Song>, albums: set<string>)
    ensures Select(a + b + c, albums) == Select(a, albums) + Select(b, albums) + Select(c, albums)
    ensures Drop(a + b + c, albums) == Drop(a, albums) + Drop(b, albums) + Drop(c, albums)
  {
    SelectAppend(a + b, c, albums);
    SelectAppend(a, b, albums);
    DropAppend(a + b, c, albums);
    DropAppend(a, b, albums);
  }

  /** Selection distributes over a playlist of four parts. */
  lemma SelectFour(a: seq<Song>, b: seq<Song>, c: seq<Song>, d: seq<Song>, albums: set<string>)
    ensures Select(a + b + c + d, albums) == Select(a, albums) + Select(b, albums) + Select(c, albums) + Select(d, albums)
  {
    SelectAppend(a + b + c, d, albums);
    SelectAppend(a + b, c, albums);
    SelectAppend(a, b, albums);
  }

  /** Empty parts of a concatenation can be left out. */
  lemma EmptyParts<T>(a: seq<T>, b: seq<T>)
    ensures a + [] + b + [] == a + b && [] + a + [] + b == a + b
    ensures [] + a + [] == a && a + [] + b == a + b
  {
    assert a + [] == a;
    assert [] + a == a;
  }

  /** A sequence is the concatenation of its three slices at `i` and `j`. */
  lemma SliceParts<T>(s: seq<T>, i: nat, j: nat)
    requires i <= j <= |s|
    ensures s == s[..i] + s[i..j] + s[j..]
  {
    assert s[..i] + s[i..j] == s[..j];
  }

  /** The two halves of a concatenation are its slices at the seam. */
  lemma HalvesOf<T>(a: seq<T>, b: seq<T>)
    ensures (a + b)[..|a|] == a && (a + b)[|a|..] == b
  {
  }

  /** Concatenating four parts does not depend on the grouping. */
  lemma RegroupParts<T>(a: seq<T>, b: seq<T>, c: seq<T>, d: seq<T>)
    ensures a + (b + c + d) == a + b + c + d
  {
  }

  lemma {:induction false} SelectAppend(x: seq<Song>, y: seq<Song>, albums: set<string>)
    ensures Select(x + y, albums) == Select(x, albums) + Select(y, albums)
    decreases |x|
  {
    if |x| > 0 {
      assert (x + y)[1..] == x[1..] + y;
      SelectAppend(x[1..], y, albums);
    } else {
      assert x + y == y;
    }
  }

  lemma {:induction false} DropAppend(x: seq<Song>, y: seq<Song>, albums: set<string>)
    ensures Drop(x + y, albums) == Drop(x, albums) + Drop(y, albums)
    decreases |x|
  {
    if |x| > 0 {
      assert (x + y)[1..] == x[1..] + y;
      DropAppend(x[1..], y, albums);
    } else {
      assert x + y == y;
    }
  }

  /** Selecting from a selection keeps the songs of both album sets. */
  lemma {:induction false} SelectSelect(p: seq<Song>, a: set<string>, b: set<string>)
    ensures Select(Select(p, a), b) == Select(p, a * b)
    decreases |p|
  {
    if |p| > 0 {
      SelectSelect(p[1..], a, b);
      var head := if InAlbums(p[0], a) then [p[0]] else [];
      SelectAppend(head, Select(p[1..], a), b);
    }
  }

  /** Selecting from the rest keeps the songs of `b` outside `a`. */
  lemma {:induction false} SelectDrop(p: seq<Song>, a: set<string>, b: set<string>)
    ensures Select(Drop(p, a), b) == Select(p, b - a)
    decreases |p|
  {
    if |p| > 0 {
      SelectDrop(p[1..], a, b);
      var head := if InAlbums(p[0], a) then [] else [p[0]];
      SelectAppend(head, Drop(p[1..], a), b);
    }
  }

  /** Dropping from a selection keeps the songs of `a` outside `b`. */
  lemma {:induction false} DropSelect(p: seq<Song>, a: set<string>, b: set<string>)
    ensures Drop(Select(p, a), b) == Select(p, a - b)
    decreases |p|
  {
    if |p| > 0 {
      DropSelect(p[1..], a, b);
      var head := if InAlbums(p[0], a) then [p[0]] else [];
      DropAppend(head, Select(p[1..], a), b);
    }
  }

  /** Dropping twice drops the union. */
  lemma {:induction false} DropDrop(p: seq<Song>, a: set<string>, b: set<string>)
    ensures Drop(Drop(p, a), b) == Drop(p, a + b)
    decreases |p|
  {
    if |p| > 0 {
      DropDrop(p[1..], a, b);
      var head := if InAlbums(p[0], a) then [] else [p[0]];
      DropAppend(head, Drop(p[1..], a), b);
    }
  }

  /** Selecting when every song belongs to the albums keeps everything;
      dropping then keeps nothing. */
  lemma {:induction false} SelectWhole(p: seq<Song>, albums: set<string>)
    requires forall i :: 0 <= i < |p| ==> InAlbums(p[i], albums)
    ensures Select(p, albums) == p
    ensures Drop(p, albums) == []
    decreases |p|
  {
    if |p| > 0 {
      SelectWhole(p[1..], albums);
      assert p == [p[0]] + p[1..];
    }
  }

  /** Selecting when no song belongs to the albums keeps nothing; dropping
      then keeps everything. */
  lemma {:induction false} SelectNothing(p: seq<Song>, albums: set<string>)
    requires forall i :: 0 <= i < |p| ==> !InAlbums(p[i], albums)
    ensures Select(p, albums) == []
    ensures Drop(p, albums) == p
    decreases |p|
  {
    if |p| > 0 {
      SelectNothing(p[1..], albums);
      assert p == [p[0]] + p[1..];
    }
  }
}
