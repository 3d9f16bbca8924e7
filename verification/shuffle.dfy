/** `shuffle_albums`: for each album of a supplied order, look up its
    boundaries on the queue as it is now and move that range to the front.
    On a queue already grouped by album the result lists the albums in the
    reverse of the processing order; on an interleaved queue a boundary
    spans whatever lies between the album's first and last song. */
module Shuffle {
  import opened Wrappers
  import opened Playlist
  import opened AlbumList

  /** One iteration of the loop: an album without songs leaves the queue
      alone; otherwise its range `[first, last]` moves to position 0. */
  function ShuffleStep(p: seq<Song>, album: string): (r: seq<Song>)
    ensures |r| == |p| && multiset(r) == multiset(p)
    ensures !HasAlbum(p, album) ==> r == p
  {
    match FindAlbumBoundaries(p, album)
    case None => p
    case Some(b) => MoveToFront(p, b.first, b.last)
  }

  /** A step on an album that occurs moves its boundary range, in order, to
      the front; the songs outside the range follow in their old order. */
  lemma StepMovesRange(p: seq<Song>, album: string, b: Bounds)
    requires FindAlbumBoundaries(p, album) == Some(b)
    ensures var r, n := ShuffleStep(p, album), b.last - b.first + 1;
      && r[..n] == p[b.first..b.last + 1]
      && r[n..] == p[..b.first] + p[b.last + 1..]
  {
    assert ShuffleStep(p, album) == MoveToFront(p, b.first, b.last);
    MoveToFrontSlices(p, b.first, b.last);
  }

  /** The loop of `shuffle_albums` over `order`, each step on the queue the
      previous step left. */
  function Shuffle(p: seq<Song>, order: seq<string>): (r: seq<Song>)
    ensures |r| == |p| && multiset(r) == multiset(p)
    decreases |order|
  {
    if |order| == 0 then p else Shuffle(ShuffleStep(p, order[0]), order[1..])
  }

  /** Shuffling in an order handles its first album first. */
  lemma ShuffleHead(p: seq<Song>, order: seq<string>)
    requires |order| > 0
    ensures Shuffle(p, order) == Shuffle(ShuffleStep(p, order[0]), order[1..])
  {
  }

  /** No album occurs twice. */
  predicate Distinct(xs: seq<string>)
  {
    forall i, j :: 0 <= i < j < |xs| ==> xs[i] != xs[j]
  }

  function Elems(xs: seq<string>): set<string>
  {
    set x | x in xs
  }

  function Reverse(xs: seq<string>): (r: seq<string>)
    ensures |r| == |xs|
    ensures forall i :: 0 <= i < |xs| ==> r[i] == xs[|xs| - 1 - i]
    decreases |xs|
  {
    if |xs| == 0 then [] else Reverse(xs[1..]) + [xs[0]]
  }

  /** The songs of each album of `albums` in turn, each in queue order. */
  function Groups(albums: seq<string>, p: seq<Song>): seq<Song>
    decreases |albums|
  {
    if |albums| == 0 then [] else Select(p, {albums[0]}) + Groups(albums[1..], p)
  }

  /** The untagged songs, in queue order. */
  function Untagged(p: seq<Song>): (r: seq<Song>)
    ensures forall j :: 0 <= j < |r| ==> r[j].album.None?
    decreases |p|
  {
    if |p| == 0 then [] else (if p[0].album.None? then [p[0]] else []) + Untagged(p[1..])
  }

  /** Dropping every album that occurs leaves exactly the untagged songs. */
  lemma {:induction false} DropEveryAlbum(p: seq<Song>, albums: set<string>)
    requires forall i :: 0 <= i < |p| && p[i].album.Some? ==> Normalise(p[i].album.value) in albums
    ensures Drop(p, albums) == Untagged(p)
    decreases |p|
  {
    if |p| > 0 {
      assert forall i :: 0 <= i < |p[1..]| ==> p[1..][i] == p[i + 1];
      DropEveryAlbum(p[1..], albums);
    }
  }

  /** Every song inside an album's boundaries on a grouped queue belongs to
      that album. */
  lemma BoundsHoldOnlyAlbum(p: seq<Song>, album: string, b: Bounds)
    requires Contiguous(p)
    requires FindAlbumBoundaries(p, album) == Some(b)
    ensures forall j :: b.first <= j <= b.last ==> Key(p[j]) == Some(album)
  {
    forall j | b.first < j < b.last ensures Key(p[j]) == Some(album) {
      assert NoGap(p, b.first, j, b.last);
    }
  }

  /** An album that fills exactly `[first, last]`. */
  predicate FillsRange(p: seq<Song>, album: string, first: nat, last: nat)
  {
    && first <= last < |p|
    && (forall j :: first <= j <= last ==> Matches(p[j], album))
    && (forall j :: 0 <= j < |p| && Matches(p[j], album) ==> first <= j <= last)
  }

  /** The songs before a filled range belong to other albums. */
  lemma BeforeRun(p: seq<Song>, album: string, first: nat, last: nat)
    requires FillsRange(p, album, first, last)
    ensures Select(p[..first], {album}) == [] && Drop(p[..first], {album}) == p[..first]
  {
    var before := p[..first];
    forall i | 0 <= i < |before| ensures !InAlbums(before[i], {album}) {
      assert before[i] == p[i];
    }
    SelectNothing(before, {album});
  }

  /** The songs of a filled range all belong to its album. */
  lemma InsideRun(p: seq<Song>, album: string, first: nat, last: nat)
    requires FillsRange(p, album, first, last)
    ensures Select(p[first..last + 1], {album}) == p[first..last + 1]
    ensures Drop(p[first..last + 1], {album}) == []
  {
    var block := p[first..last + 1];
    forall i | 0 <= i < |block| ensures InAlbums(block[i], {album}) {
      assert block[i] == p[first + i];
    }
    SelectWhole(block, {album});
  }

  /** The songs after a filled range belong to other albums. */
  lemma AfterRun(p: seq<Song>, album: string, first: nat, last: nat)
    requires FillsRange(p, album, first, last)
    ensures Select(p[last + 1..], {album}) == [] && Drop(p[last + 1..], {album}) == p[last + 1..]
  {
    var after := p[last + 1..];
    forall i | 0 <= i < |after| ensures !InAlbums(after[i], {album}) {
      assert after[i] == p[last + 1 + i];
    }
    SelectNothing(after, {album});
  }

  /** The songs of an album that fills exactly `[first, last]`, and the
      others; moving the range to the front therefore groups the album. */
  lemma SelectRun(p: seq<Song>, album: string, first: nat, last: nat)
    requires FillsRange(p, album, first, last)
    ensures Select(p, {album}) == p[first..last + 1]
    ensures Drop(p, {album}) == p[..first] + p[last + 1..]
  {
    var before, block, after := p[..first], p[first..last + 1], p[last + 1..];
    BeforeRun(p, album, first, last);
    InsideRun(p, album, first, last);
    AfterRun(p, album, first, last);
    SliceParts(p, first, last + 1);
    SelectThree(before, block, after, {album});
    EmptyParts(block, after);
    EmptyParts(before, after);
  }

  /** Moving a filled range to the front groups its album. */
  lemma MoveRunGroups(p: seq<Song>, album: string, first: nat, last: nat)
    requires FillsRange(p, album, first, last)
    ensures p[first..last + 1] + p[..first] + p[last + 1..] == Select(p, {album}) + Drop(p, {album})
  {
    SelectRun(p, album, first, last);
  }

  /** A step on an album that occurs is the move of its boundary range. */
  lemma StepIsMove(p: seq<Song>, album: string, b: Bounds)
    requires FindAlbumBoundaries(p, album) == Some(b)
    ensures ShuffleStep(p, album) == p[b.first..b.last + 1] + p[..b.first] + p[b.last + 1..]
  {
  }

  /** On a grouped queue the boundaries of an album hold exactly its songs. */
  lemma GroupedBoundsFill(p: seq<Song>, album: string)
    requires Contiguous(p)
    ensures var b := FindAlbumBoundaries(p, album);
      b.Some? ==> FillsRange(p, album, b.value.first, b.value.last)
  {
    var b := FindAlbumBoundaries(p, album);
    if b.Some? {
      BoundsHoldOnlyAlbum(p, album, b.value);
    }
  }

  /** One step when the album's boundaries hold exactly its songs. */
  lemma StepOnFilled(p: seq<Song>, album: string)
    requires var b := FindAlbumBoundaries(p, album);
      b.Some? ==> FillsRange(p, album, b.value.first, b.value.last)
    ensures ShuffleStep(p, album) == Select(p, {album}) + Drop(p, {album})
  {
    var b := FindAlbumBoundaries(p, album);
    if b.None? {
      StepOnAbsent(p, album);
    } else {
      StepOnRun(p, album, b.value);
    }
  }

  /** A step on an album whose boundaries hold exactly its songs groups it. */
  lemma StepOnRun(p: seq<Song>, album: string, b: Bounds)
    requires FindAlbumBoundaries(p, album) == Some(b)
    requires FillsRange(p, album, b.first, b.last)
    ensures ShuffleStep(p, album) == Select(p, {album}) + Drop(p, {album})
  {
    var f, l := b.first, b.last;
    calc {
      ShuffleStep(p, album);
      { StepIsMove(p, album, b); }
      p[f..l + 1] + p[..f] + p[l + 1..];
      { MoveRunGroups(p, album, f, l); }
      Select(p, {album}) + Drop(p, {album});
    }
  }

  /** A step on an album without songs selects nothing and keeps the rest. */
  lemma StepOnAbsent(p: seq<Song>, album: string)
    requires FindAlbumBoundaries(p, album).None?
    ensures ShuffleStep(p, album) == Select(p, {album}) + Drop(p, {album})
  {
    SelectNothing(p, {album});
    assert [] + p == p;
  }

  /** On a grouped queue one step puts the album's songs first and leaves
      the others in their order. */
  lemma StepOnContiguous(p: seq<Song>, album: string)
    requires Contiguous(p)
    ensures ShuffleStep(p, album) == Select(p, {album}) + Drop(p, {album})
  {
    GroupedBoundsFill(p, album);
    StepOnFilled(p, album);
  }

  /** Where the song at position `i` after a move of `[first, last]` to the
      front stood before. */
  ghost function Origin(i: nat, first: nat, last: nat): nat
    requires first <= last
  {
    var n := last - first + 1;
    if i < n then first + i else if i <= last then i - n else i
  }

  lemma MoveOrigin(p: seq<Song>, f: nat, l: nat, i: nat)
    requires f <= l < |p| && i < |p|
    ensures MoveToFront(p, f, l)[i] == p[Origin(i, f, l)]
  {
    MoveToFrontPositions(p, f, l);
    var n := l - f + 1;
    if n <= i <= l {
      assert MoveToFront(p, f, l)[n + (i - n)] == p[i - n];
    }
  }

  /** The gap condition for one triple of positions after the move. */
  lemma MoveNoGap(p: seq<Song>, album: string, f: nat, l: nat, i: nat, j: nat, k: nat)
    requires Contiguous(p)
    requires FillsRange(p, album, f, l)
    requires i < j < k < |p|
    ensures NoGap(MoveToFront(p, f, l), i, j, k)
  {
    var r := MoveToFront(p, f, l);
    var n := l - f + 1;
    var oi, oj, ok := Origin(i, f, l), Origin(j, f, l), Origin(k, f, l);
    MoveOrigin(p, f, l, i);
    MoveOrigin(p, f, l, j);
    MoveOrigin(p, f, l, k);
    if Key(r[i]).Some? && Key(r[i]) == Key(r[k]) {
      if Key(r[i]) == Some(album) {
        assert f <= ok <= l;
        assert k < n;
      } else {
        assert n <= i;
        assert oi < oj < ok;
        assert NoGap(p, oi, oj, ok);
      }
    }
  }

  /** Moving a range that holds exactly one album's songs to the front
      keeps a grouped queue grouped. */
  lemma MovePreservesContiguity(p: seq<Song>, album: string, f: nat, l: nat)
    requires Contiguous(p)
    requires FillsRange(p, album, f, l)
    ensures Contiguous(MoveToFront(p, f, l))
  {
    var r := MoveToFront(p, f, l);
    forall i, j, k | 0 <= i < j < k < |r| ensures NoGap(r, i, j, k) {
      MoveNoGap(p, album, f, l, i, j, k);
    }
  }

  /** Every step keeps a grouped queue grouped. */
  lemma StepPreservesContiguity(p: seq<Song>, album: string)
    requires Contiguous(p)
    ensures Contiguous(ShuffleStep(p, album))
  {
    GroupedBoundsFill(p, album);
    var b := FindAlbumBoundaries(p, album);
    if b.Some? {
      StepIsMove(p, album, b.value);
      MovePreservesContiguity(p, album, b.value.first, b.value.last);
    }
  }

  /** The whole loop keeps a grouped queue grouped. */
  lemma {:induction false} ShufflePreservesContiguity(p: seq<Song>, order: seq<string>)
    requires Contiguous(p)
    ensures Contiguous(Shuffle(p, order))
    decreases |order|
  {
    if |order| > 0 {
      StepPreservesContiguity(p, order[0]);
      ShufflePreservesContiguity(ShuffleStep(p, order[0]), order[1..]);
    }
  }

  /** Splitting off one album does not change which songs another album
      set selects. */
  lemma SplitInvisible(p: seq<Song>, album: string, other: set<string>)
    requires album !in other
    ensures Select(Select(p, {album}) + Drop(p, {album}), other) == Select(p, other)
  {
    SelectAppend(Select(p, {album}), Drop(p, {album}), other);
    SelectSelect(p, {album}, other);
    SelectDrop(p, {album}, other);
    assert {album} * other == {};
    assert other - {album} == other;
    SelectNothing(p, {});
  }

  lemma {:induction false} GroupsCongruent(albums: seq<string>, p: seq<Song>, q: seq<Song>)
    requires forall i :: 0 <= i < |albums| ==> Select(q, {albums[i]}) == Select(p, {albums[i]})
    ensures Groups(albums, q) == Groups(albums, p)
    decreases |albums|
  {
    if |albums| > 0 {
      GroupsCongruent(albums[1..], p, q);
    }
  }

  lemma {:induction false} GroupsAppend(albums: seq<string>, last: string, p: seq<Song>)
    ensures Groups(albums + [last], p) == Groups(albums, p) + Select(p, {last})
    decreases |albums|
  {
    if |albums| == 0 {
      assert albums + [last] == [last];
    } else {
      assert (albums + [last])[1..] == albums[1..] + [last];
      GroupsAppend(albums[1..], last, p);
    }
  }

  lemma ReverseElems(xs: seq<string>)
    ensures Elems(Reverse(xs)) == Elems(xs)
  {
    var r := Reverse(xs);
    forall x | x in r ensures x in xs {
      var i :| 0 <= i < |r| && r[i] == x;
      assert xs[|xs| - 1 - i] == x;
    }
    forall x | x in xs ensures x in r {
      var i :| 0 <= i < |xs| && xs[i] == x;
      assert r[|xs| - 1 - i] == x;
    }
  }

  /** Splitting off an album the list does not name leaves its groups alone. */
  lemma SplitKeepsGroups(p: seq<Song>, album: string, albums: seq<string>)
    requires album !in Elems(albums)
    ensures Groups(albums, Select(p, {album}) + Drop(p, {album})) == Groups(albums, p)
  {
    var q := Select(p, {album}) + Drop(p, {album});
    forall i | 0 <= i < |albums| ensures Select(q, {albums[i]}) == Select(p, {albums[i]}) {
      assert albums[i] in Elems(albums);
      SplitInvisible(p, album, {albums[i]});
    }
    GroupsCongruent(albums, p, q);
  }

  /** After splitting off `album`, dropping further albums keeps it first. */
  lemma SplitKeepsRest(p: seq<Song>, album: string, others: set<string>)
    requires album !in others
    ensures Drop(Select(p, {album}) + Drop(p, {album}), others) == Select(p, {album}) + Drop(p, {album} + others)
  {
    DropAppend(Select(p, {album}), Drop(p, {album}), others);
    DropSelect(p, {album}, others);
    DropDrop(p, {album}, others);
    assert {album} - others == {album};
  }

  /** The first album of a duplicate-free order is not among the rest. */
  lemma DistinctHead(order: seq<string>)
    requires Distinct(order) && |order| > 0
    ensures Distinct(order[1..])
    ensures order[0] !in Elems(order[1..])
    ensures Elems(order) == {order[0]} + Elems(order[1..])
  {
    assert order == [order[0]] + order[1..];
  }

  /** The inductive step of `ShuffleRegroups`, once the first step has split
      off its album. */
  lemma RegroupStep(p: seq<Song>, album: string, rest: seq<string>)
    requires album !in Elems(rest)
    ensures var q := Select(p, {album}) + Drop(p, {album});
      Groups(Reverse(rest), q) + Drop(q, Elems(rest))
      == Groups(Reverse([album] + rest), p) + Drop(p, {album} + Elems(rest))
  {
    var q := Select(p, {album}) + Drop(p, {album});
    ReverseElems(rest);
    assert ([album] + rest)[1..] == rest;
    calc {
      Groups(Reverse(rest), q) + Drop(q, Elems(rest));
      { SplitKeepsGroups(p, album, Reverse(rest)); }
      Groups(Reverse(rest), p) + Drop(q, Elems(rest));
      { SplitKeepsRest(p, album, Elems(rest)); }
      Groups(Reverse(rest), p) + (Select(p, {album}) + Drop(p, {album} + Elems(rest)));
      { GroupsAppend(Reverse(rest), album, p); }
      Groups(Reverse([album] + rest), p) + Drop(p, {album} + Elems(rest));
    }
  }

  /** On a grouped queue the loop leaves the albums of `order` in reverse
      processing order, the album processed last at the front, each album's
      songs in their original order, followed by the songs it did not touch. */
  lemma {:induction false} ShuffleRegroups(p: seq<Song>, order: seq<string>)
    requires Contiguous(p)
    requires Distinct(order)
    ensures Shuffle(p, order) == Groups(Reverse(order), p) + Drop(p, Elems(order))
    decreases |order|
  {
    if |order| == 0 {
      assert Elems(order) == {};
      SelectNothing(p, {});
    } else {
      var album, rest := order[0], order[1..];
      var q := ShuffleStep(p, album);
      StepOnContiguous(p, album);
      StepPreservesContiguity(p, album);
      DistinctHead(order);
      ShuffleRegroups(q, rest);
      RegroupStep(p, album, rest);
      assert order == [album] + rest;
    }
  }

  /** Selecting one album from a list of groups finds its group, if listed. */
  lemma {:induction false} SelectGroups(albums: seq<string>, p: seq<Song>, album: string)
    requires Distinct(albums)
    ensures Select(Groups(albums, p), {album}) == if album in albums then Select(p, {album}) else []
    decreases |albums|
  {
    if |albums| == 0 {
    } else {
      var head, rest := albums[0], albums[1..];
      DistinctHead(albums);
      SelectGroups(rest, p, album);
      SelectAppend(Select(p, {head}), Groups(rest, p), {album});
      SelectSelect(p, {head}, {album});
      if head == album {
        assert {head} * {album} == {album};
      } else {
        assert {head} * {album} == {};
        SelectNothing(p, {});
        assert album in albums <==> album in rest;
      }
    }
  }

  lemma ReverseDistinct(xs: seq<string>)
    requires Distinct(xs)
    ensures Distinct(Reverse(xs))
  {
    var r := Reverse(xs);
    forall i, j | 0 <= i < j < |r| ensures r[i] != r[j] {
      assert r[i] == xs[|xs| - 1 - i] && r[j] == xs[|xs| - 1 - j];
    }
  }

  /** Selecting one album from the regrouped queue finds its original songs. */
  lemma SelectRegrouped(p: seq<Song>, order: seq<string>, album: string)
    requires Distinct(order)
    ensures Select(Groups(Reverse(order), p) + Drop(p, Elems(order)), {album}) == Select(p, {album})
  {
    var rev := Reverse(order);
    ReverseElems(order);
    ReverseDistinct(order);
    SelectAppend(Groups(rev, p), Drop(p, Elems(order)), {album});
    SelectGroups(rev, p, album);
    SelectDrop(p, Elems(order), {album});
    if album in order {
      assert album in Elems(rev);
      assert {album} - Elems(order) == {};
      SelectNothing(p, {});
    } else {
      assert album !in Elems(rev);
      assert {album} - Elems(order) == {album};
    }
  }

  /** On a grouped queue every album's songs keep their relative order. */
  lemma AlbumOrderKept(p: seq<Song>, order: seq<string>, album: string)
    requires Contiguous(p)
    requires Distinct(order)
    ensures Select(Shuffle(p, order), {album}) == Select(p, {album})
  {
    ShuffleRegroups(p, order);
    SelectRegrouped(p, order, album);
  }

  /** The boundaries of an album are determined by its first and last song. */
  lemma BoundsOf(p: seq<Song>, album: string, first: nat, last: nat)
    requires first <= last < |p|
    requires Matches(p[first], album) && Matches(p[last], album)
    requires forall i :: 0 <= i < |p| && Matches(p[i], album) ==> first <= i <= last
    ensures FindAlbumBoundaries(p, album) == Some(Bounds(first, last))
  {
  }

  /** What the loop does when `albumlist` is an ordering of the album set:
      nothing for an empty set, and on a grouped queue a grouped result with
      the albums in reverse order, then the untagged songs when the set is
      fresh. */
  lemma ShuffleAlbumsFacts(list: AlbumList, p: seq<Song>, albumlist: seq<string>)
    requires Distinct(albumlist) && Elems(albumlist) == list.albums
    ensures var r := Shuffle(p, albumlist);
      && (list.albums == {} ==> r == p)
      && (Contiguous(p) ==> Contiguous(r))
      && (Contiguous(p) ==> r == Groups(Reverse(albumlist), p) + Drop(p, list.albums))
      && (Contiguous(p) && list == Refresh(list, p) ==> r == Groups(Reverse(albumlist), p) + Untagged(p))
  {
    assert |albumlist| > 0 ==> albumlist[0] in Elems(albumlist);
    if Contiguous(p) {
      ShufflePreservesContiguity(p, albumlist);
      ShuffleRegroups(p, albumlist);
      if list == Refresh(list, p) {
        DropEveryAlbum(p, list.albums);
      }
    }
  }

  /** `shuffle_albums` with the permutation `random.shuffle` produced
      supplied as `albumlist`, an ordering of the album set. */
  function ShuffleAlbums(list: AlbumList, p: seq<Song>, albumlist: seq<string>): (r: seq<Song>)
    requires Distinct(albumlist) && Elems(albumlist) == list.albums
    ensures |r| == |p| && multiset(r) == multiset(p)
    ensures list.albums == {} ==> r == p
    ensures Contiguous(p) ==> Contiguous(r)
    ensures Contiguous(p) ==> r == Groups(Reverse(albumlist), p) + Drop(p, list.albums)
    ensures Contiguous(p) && list == Refresh(list, p) ==> r == Groups(Reverse(albumlist), p) + Untagged(p)
  {
    ShuffleAlbumsFacts(list, p, albumlist);
    Shuffle(p, albumlist)
  }

  /** Every song of `xs` belongs to `album`. */
  predicate AllOf(xs: seq<Song>, album: string)
  {
    forall s :: s in xs ==> Matches(s, album)
  }

  /** No song of `xs` belongs to `album`. */
  predicate NoneOf(xs: seq<Song>, album: string)
  {
    forall s :: s in xs ==> !Matches(s, album)
  }

  /** A step on an album whose first and last song open and close the
      middle part of `before + block + after` moves that part, whatever else
      it holds, to the front. */
  lemma StepOnBlocks(before: seq<Song>, block: seq<Song>, after: seq<Song>, album: string)
    requires |block| > 0 && Matches(block[0], album) && Matches(block[|block| - 1], album)
    requires NoneOf(before, album) && NoneOf(after, album)
    ensures ShuffleStep(before + block + after, album) == block + before + after
  {
    var p := before + block + after;
    var f, l := |before|, |before| + |block| - 1;
    assert p[f] == block[0] && p[l] == block[|block| - 1];
    assert forall i :: 0 <= i < |p| && Matches(p[i], album) ==> f <= i <= l;
    BoundsOf(p, album, f, l);
    StepIsMove(p, album, Bounds(f, l));
    assert p[f..l + 1] == block && p[..f] == before && p[l + 1..] == after;
  }

  /** The same when nothing precedes the range. */
  lemma StepOnFront(block: seq<Song>, after: seq<Song>, album: string)
    requires |block| > 0 && Matches(block[0], album) && Matches(block[|block| - 1], album)
    requires NoneOf(after, album)
    ensures ShuffleStep(block + after, album) == block + after
  {
    StepOnBlocks([], block, after, album);
    assert [] + block + after == block + after;
    assert block + [] + after == block + after;
  }

  /** The same when nothing follows the range. */
  lemma StepOnTail(before: seq<Song>, block: seq<Song>, album: string)
    requires |block| > 0 && Matches(block[0], album) && Matches(block[|block| - 1], album)
    requires NoneOf(before, album)
    ensures ShuffleStep(before + block, album) == block + before
  {
    StepOnBlocks(before, block, [], album);
    assert before + block + [] == before + block;
    assert block + before + [] == block + before;
  }

  /** The same when the album's songs end a queue of two other parts. */
  lemma StepOnLast(xs: seq<Song>, ys: seq<Song>, block: seq<Song>, album: string)
    requires |block| > 0 && AllOf(block, album)
    requires NoneOf(xs, album) && NoneOf(ys, album)
    ensures ShuffleStep(xs + ys + block, album) == block + xs + ys
  {
    assert NoneOf(xs + ys, album);
    assert block[0] in block && block[|block| - 1] in block;
    StepOnTail(xs + ys, block, album);
    assert block + (xs + ys) == block + xs + ys;
  }

  /** Songs of one album belong to no other. */
  lemma OtherAlbum(xs: seq<Song>, album: string, other: string)
    requires AllOf(xs, album) && album != other
    ensures NoneOf(xs, other)
  {
  }

  /** A queue of three grouped albums X, Y, Z, processed in the order
      Z, X, Y, ends as Y, X, Z: the album processed last comes first. */
  lemma ThreeAlbumsReversed(x: string, y: string, z: string, xs: seq<Song>, ys: seq<Song>, zs: seq<Song>)
    requires x != y && y != z && x != z
    requires |xs| > 0 && |ys| > 0 && |zs| > 0
    requires AllOf(xs, x) && AllOf(ys, y) && AllOf(zs, z)
    ensures Shuffle(xs + ys + zs, [z, x, y]) == ys + xs + zs
  {
    OtherAlbum(xs, x, y); OtherAlbum(xs, x, z);
    OtherAlbum(ys, y, x); OtherAlbum(ys, y, z);
    OtherAlbum(zs, z, x); OtherAlbum(zs, z, y);
    var o := [z, x, y];
    assert o[0] == z && o[1..] == [x, y] && o[1..][0] == x && o[1..][1..] == [y];
    calc {
      Shuffle(xs + ys + zs, o);
      { ShuffleHead(xs + ys + zs, o); StepOnLast(xs, ys, zs, z); }
      Shuffle(zs + xs + ys, [x, y]);
      { ShuffleHead(zs + xs + ys, [x, y]);
        assert xs[0] in xs && xs[|xs| - 1] in xs;
        StepOnBlocks(zs, xs, ys, x); }
      Shuffle(xs + zs + ys, [y]);
      { ShuffleHead(xs + zs + ys, [y]); StepOnLast(xs, zs, ys, y); }
      Shuffle(ys + xs + zs, []);
    }
  }

  /** On a queue of songs of X, then Y, then X, then Y, the boundaries of
      X span the first songs of Y, so the step for X leaves the queue as it
      is; the step for Y then moves everything from the first Y on to the
      front, leaving neither album grouped. */
  lemma InterleavedQueue(x: string, y: string, xs1: seq<Song>, ys1: seq<Song>, xs2: seq<Song>, ys2: seq<Song>)
    requires x != y
    requires |xs1| > 0 && |ys1| > 0 && |xs2| > 0 && |ys2| > 0
    requires AllOf(xs1, x) && AllOf(ys1, y) && AllOf(xs2, x) && AllOf(ys2, y)
    ensures Shuffle(xs1 + ys1 + xs2 + ys2, [x, y]) == ys1 + xs2 + ys2 + xs1
  {
    var p := xs1 + ys1 + xs2 + ys2;
    var o := [x, y];
    assert o[0] == x && o[1..] == [y];
    calc {
      Shuffle(p, o);
      { ShuffleHead(p, o); InterleavedStepX(x, y, xs1, ys1, xs2, ys2); }
      Shuffle(p, [y]);
      { ShuffleHead(p, [y]); InterleavedStepY(x, y, xs1, ys1, xs2, ys2); }
      Shuffle(ys1 + xs2 + ys2 + xs1, []);
    }
  }

  /** The step for X: its range covers the first three runs. */
  lemma InterleavedStepX(x: string, y: string, xs1: seq<Song>, ys1: seq<Song>, xs2: seq<Song>, ys2: seq<Song>)
    requires x != y
    requires |xs1| > 0 && |xs2| > 0
    requires AllOf(xs1, x) && AllOf(xs2, x) && AllOf(ys2, y)
    ensures ShuffleStep(xs1 + ys1 + xs2 + ys2, x) == xs1 + ys1 + xs2 + ys2
  {
    OtherAlbum(ys2, y, x);
    var span := xs1 + ys1 + xs2;
    assert xs1[0] in xs1 && xs2[|xs2| - 1] in xs2;
    assert span[0] == xs1[0] && span[|span| - 1] == xs2[|xs2| - 1];
    StepOnFront(span, ys2, x);
  }

  /** The step for Y: its range covers the last three runs. */
  lemma InterleavedStepY(x: string, y: string, xs1: seq<Song>, ys1: seq<Song>, xs2: seq<Song>, ys2: seq<Song>)
    requires x != y
    requires |ys1| > 0 && |ys2| > 0
    requires AllOf(xs1, x) && AllOf(ys1, y) && AllOf(ys2, y)
    ensures ShuffleStep(xs1 + ys1 + xs2 + ys2, y) == ys1 + xs2 + ys2 + xs1
  {
    OtherAlbum(xs1, x, y);
    var span := ys1 + xs2 + ys2;
    assert ys1[0] in ys1 && ys2[|ys2| - 1] in ys2;
    assert span[0] == ys1[0] && span[|span| - 1] == ys2[|ys2| - 1];
    StepOnTail(xs1, span, y);
    RegroupParts(xs1, ys1, xs2, ys2);
  }

  /** On that queue the songs of X come out as the second run followed by
      the first, out of their queue order. */
  lemma InterleavedReordersAlbum(x: string, y: string, xs1: seq<Song>, ys1: seq<Song>, xs2: seq<Song>, ys2: seq<Song>)
    requires x != y
    requires |xs1| > 0 && |ys1| > 0 && |xs2| > 0 && |ys2| > 0
    requires AllOf(xs1, x) && AllOf(ys1, y) && AllOf(xs2, x) && AllOf(ys2, y)
    ensures Select(xs1 + ys1 + xs2 + ys2, {x}) == xs1 + xs2
    ensures Select(Shuffle(xs1 + ys1 + xs2 + ys2, [x, y]), {x}) == xs2 + xs1
  {
    InterleavedQueue(x, y, xs1, ys1, xs2, ys2);
    OtherAlbum(ys1, y, x); OtherAlbum(ys2, y, x);
    SelectRuns(xs1, x); SelectRuns(xs2, x);
    SelectNone(ys1, x); SelectNone(ys2, x);
    SelectFour(xs1, ys1, xs2, ys2, {x});
    SelectFour(ys1, xs2, ys2, xs1, {x});
    EmptyParts(xs1, xs2);
    EmptyParts(xs2, xs1);
  }


  /** Selecting an album from a run of its songs keeps the run. */
  lemma SelectRuns(xs: seq<Song>, x: string)
    requires AllOf(xs, x)
    ensures Select(xs, {x}) == xs
  {
    forall i | 0 <= i < |xs| ensures InAlbums(xs[i], {x}) {
      assert xs[i] in xs;
    }
    SelectWhole(xs, {x});
  }

  /** Selecting an album from songs of none of it keeps nothing. */
  lemma SelectNone(xs: seq<Song>, x: string)
    requires NoneOf(xs, x)
    ensures Select(xs, {x}) == []
  {
    forall i | 0 <= i < |xs| ensures !InAlbums(xs[i], {x}) {
      assert xs[i] in xs;
    }
    SelectNothing(xs, {x});
  }
}
