# mpd-album-shuffle in Dafny

`mpd-album-shuffle` talks to a running MPD (Music Player Daemon) and does one
of two things with the current queue: play the first song of a random album
other than the one playing (`play`), or regroup the whole queue into a random
order of albums (`sort`). Its core is the `AlbumList` class and the
connection-string splitter `extract_mpd_credentials`. The package module
`mpd_album_shuffle/__init__.py` and the legacy script `mpd-album-shuffle.py`
are near-identical copies of that core. This model serves both; each row
below cites the package module, and the legacy line numbers are given in the
third column.

The MPD server becomes a plain value. The queue is a `seq<Song>`, and a
song's position is its index. A song carries an optional album tag, which is
either a single string or a list of strings. The two client commands the core
relies on are defined here as assumptions about the server:

- `playlistfind("album", name)` reports the songs whose normalised album
  (the first element of a list tag) equals `name`, in queue order
  (`Playlist.Positions`).
- `move START:END 0` moves the half-open range to the front, and everything
  else follows in its old order (`Playlist.MoveToFront`).

Randomness is a parameter. `random.choice` becomes a chosen element that the
contract describes relationally. The permutation `random.shuffle` produces is
passed to `shuffle_albums` as `albumlist`.

Modules:

- `Wrappers`: `Option` and `Result`.
- `Playlist`: songs and tags, the two server commands, and selection of the
  songs of an album set (`Select`/`Drop`).
- `AlbumList`: `refresh`, `find_album_boundaries`, `get_current_album`,
  `choose_random_album` and one attempt of `play_random`.
- `Shuffle`: `shuffle_albums` as a fold of per-album steps, with the proofs
  about grouped and interleaved queues.
- `Credentials`: `extract_mpd_credentials` on top of a model of Python's
  `str.split`.

Three consequences of the code are worth stating on their own:

- **The album processed last ends up first.** Each step moves an album to
  the front, so a grouped queue comes out in the reverse of the processing
  order. A A B B C C processed in the order C, A, B ends as B, A, C
  (`Shuffle.ThreeAlbumsReversed`); `Shuffle.ShuffleRegroups` states the
  general case.
- **A single album is not looked up.** With one album in the set,
  `choose_random_album` returns its argument `current` as passed, not the
  set's member.
- **A list-tagged current album can be chosen again.** `get_current_album`
  returns a list tag as it is, without normalising it. The comparison
  `current == new` then compares a list with a string and never holds, so
  `choose_random_album` may pick the album that is already playing. The
  contract of `AlbumList.ChooseRandomAlbum` allows exactly this: only a
  `Single` tag is excluded.

The port slot changes kind. The entry point's default port is the integer
6600, while a port parsed from `host:port` is a string
(`Credentials.ParsedPortIsText`).

## Model

| member | source | states |
|---|---|---|
| Playlist.Positions | mpd_album_shuffle/__init__.py:111 | the assumed `playlistfind` answer holds exactly the positions of the songs whose normalised album is `name`, strictly increasing (legacy :103) |
| Playlist.MoveToFront | mpd_album_shuffle/__init__.py:167-168 | the assumed `move first:last+1 0` keeps the queue's length and its multiset of songs (legacy :159-160) |
| Playlist.MoveToFrontPositions | mpd_album_shuffle/__init__.py:167-168 | after the move the range sits at 0..last-first in its old order, the songs before it follow shifted by the range's length, and the songs after it keep their positions (legacy :159-160) |
| AlbumList.CollectAlbums | mpd_album_shuffle/__init__.py:94-105 | the scan collects a name iff some tagged song's album, normalised to the first element of a list tag, is that name (legacy :86-97) |
| AlbumList.Refresh | mpd_album_shuffle/__init__.py:89-105 | the album set is replaced wholesale by exactly the normalised albums of tagged songs, and every tagged song's album is in it (legacy :81-97) |
| AlbumList.RefreshIdempotent | mpd_album_shuffle/__init__.py:94 | refreshing twice on an unchanged queue gives the same set, whatever the set held before (legacy :86) |
| AlbumList.UntaggedIgnored | mpd_album_shuffle/__init__.py:96-105 | adding untagged songs before or after a queue does not change the album set (legacy :88-97) |
| AlbumList.FindAlbumBoundaries | mpd_album_shuffle/__init__.py:107-115 | None, standing for `(None, None)`, iff no song has the album; otherwise first <= last, both ends match, and every match lies between them (legacy :99-107) |
| AlbumList.FirstPosition | mpd_album_shuffle/__init__.py:142-144 | the position played is a song of the chosen album with no such song before it; None iff the album has no songs (legacy :134-136) |
| AlbumList.GetCurrentAlbum | mpd_album_shuffle/__init__.py:117-118 | the raw, un-normalised tag of the playing song; an error iff nothing plays or the song has no album tag (legacy :109-110) |
| AlbumList.ChooseRandomAlbum | mpd_album_shuffle/__init__.py:120-134 | None iff the set is empty; `current` as passed when the set has one album; otherwise a member of the set different from `current` (legacy :112-126) |
| AlbumList.PlayRandom | mpd_album_shuffle/__init__.py:136-150 | the current-album error propagates; an empty set issues no play; otherwise it plays the smallest position of the chosen album. A vanished album really has no songs, and this cannot happen right after a refresh of the same queue while the playing song is in it (legacy :128-142) |
| Shuffle.ShuffleStep | mpd_album_shuffle/__init__.py:161-168 | one step keeps length and multiset, and an album without songs leaves the queue unchanged (legacy :153-160) |
| Shuffle.StepMovesRange | mpd_album_shuffle/__init__.py:162-168 | a step puts the album's boundary range first in its old order, and the other songs follow in their old relative order (legacy :154-160) |
| Shuffle.BoundsOf | mpd_album_shuffle/__init__.py:107-115 | an album whose songs all lie in [first, last], with songs at both ends, has exactly those boundaries (legacy :99-107) |
| Shuffle.StepOnBlocks | mpd_album_shuffle/__init__.py:161-168 | when a part of the queue opens and closes with the album and nothing outside it matches, the step moves that whole part to the front, whatever it holds (legacy :153-160) |
| Shuffle.StepOnContiguous | mpd_album_shuffle/__init__.py:161-168 | on a queue grouped by album, a step yields the album's songs followed by all other songs, each in queue order (legacy :153-160) |
| Shuffle.StepPreservesContiguity | mpd_album_shuffle/__init__.py:161-168 | a step keeps a queue grouped by album grouped (legacy :153-160) |
| Shuffle.Shuffle | mpd_album_shuffle/__init__.py:161-168 | the loop with live boundaries at every step keeps length and multiset (legacy :153-160) |
| Shuffle.ShufflePreservesContiguity | mpd_album_shuffle/__init__.py:152-168 | the whole loop keeps a grouped queue grouped (legacy :144-160) |
| Shuffle.ShuffleRegroups | mpd_album_shuffle/__init__.py:152-168 | on a grouped queue with a duplicate-free order, the result lists the albums in reverse processing order, each with its songs in queue order, followed by the songs of albums not in the order (legacy :144-160) |
| Shuffle.AlbumOrderKept | mpd_album_shuffle/__init__.py:152-168 | on a grouped queue every album's songs keep their relative order (legacy :144-160) |
| Shuffle.ShuffleAlbums | mpd_album_shuffle/__init__.py:152-168 | `shuffle_albums` with `albumlist` an ordering of the album set: a permutation of the queue; no change for an empty set; on a grouped queue the result stays grouped and lists the albums in reverse `albumlist` order, followed by the untagged songs when the set is fresh (legacy :144-160) |
| Shuffle.ThreeAlbumsReversed | mpd_album_shuffle/__init__.py:152-168 | the queue A A B B C C (runs of any non-empty length) processed in the order C, A, B ends as B, A, C (legacy :144-160) |
| Shuffle.InterleavedStepX | mpd_album_shuffle/__init__.py:161-168 | on a queue X Y X Y the boundaries of X span the first run of Y, and the step for X leaves the queue unchanged (legacy :153-160) |
| Shuffle.InterleavedStepY | mpd_album_shuffle/__init__.py:161-168 | on that queue the step for Y moves everything from the first Y on to the front, songs of X included (legacy :153-160) |
| Shuffle.InterleavedQueue | mpd_album_shuffle/__init__.py:161-168 | X Y X Y processed in the order X, Y ends as Y X Y X, with neither album grouped (legacy :153-160) |
| Shuffle.InterleavedReordersAlbum | mpd_album_shuffle/__init__.py:161-168 | on that queue the songs of X come out with their second run first, so their queue order is not kept (legacy :153-160) |
| Credentials.Split | mpd_album_shuffle/__init__.py:180 | the model of `str.split`: one more piece than there are separators, no piece holding the separator (legacy :172) |
| Credentials.SplitJoin | mpd_album_shuffle/__init__.py:180 | joining the pieces with the separator gives back the string (legacy :172) |
| Credentials.JoinSplit | mpd_album_shuffle/__init__.py:180 | splitting the join of separator-free pieces gives back the pieces (legacy :172) |
| Credentials.SplitPair | mpd_album_shuffle/__init__.py:185 | unpacking into two names succeeds iff the separator occurs once, giving the text before and after it; otherwise the too-many-values error (legacy :177) |
| Credentials.ParseConnection | mpd_album_shuffle/__init__.py:183-187 | an empty part keeps host and port; `host:port` sets both as text; a bare host sets only the host; two or more colons are an error; the password is never touched (legacy :175-179) |
| Credentials.ExtractMpdCredentials | mpd_album_shuffle/__init__.py:171-189 | None or an empty string gives the defaults (three `None`s without defaults); two or more `@` are an error; without `@` the password stays and the whole string is the host and port part; only the two unpacking errors can occur (legacy :163-181) |
| Credentials.ExtractPassword | mpd_album_shuffle/__init__.py:179-180 | `pw@rest` sets the password to the text `pw` and parses `rest` as the host and port part (legacy :171-172) |
| Credentials.ExtractPasswordOnly | mpd_album_shuffle/__init__.py:183 | `pw@` keeps the default host and port and sets the password (legacy :175) |
| Credentials.ExtractHostPort | mpd_album_shuffle/__init__.py:184-185 | `host:port` sets host and port as text and keeps the default password (legacy :176-177) |
| Credentials.ExtractHostOnly | mpd_album_shuffle/__init__.py:186-187 | a bare non-empty host sets only the host (legacy :178-179) |
| Credentials.ExtractTooManyColons | mpd_album_shuffle/__init__.py:185 | a host and port part with two or more colons, such as an IPv6 address, is an error, with or without a password (legacy :177) |
| Credentials.ExtractRoundTrip | mpd_album_shuffle/__init__.py:171-189 | for separator-free parts, parsing `pw@host:port` gives back exactly the three parts, whatever the defaults (legacy :163-181) |
| Credentials.ParsedPortIsText | mpd_album_shuffle/__init__.py:228 | against the entry point's defaults, whose port is the number 6600, a parsed port is the text `port`, so the port slot changes kind (legacy :211, parse at :177) |

## Left out

- `mpd_connect` and `main`: the network session, authentication, argument parsing, logging set-up, reading `MPD_HOST`, and the precedence of command-line flags over the environment are I/O and command-line glue. Of `main`, only its default triple is modelled (`Credentials.DefaultCredentials`).
- `random.seed`, `random.choice` and `random.shuffle`: no distribution is modelled. The choice and the permutation are parameters or a `:|` choice.
- The rejection loop in `choose_random_album` is replaced by the value it ends with. Whether it terminates depends on the random source, and that is not modelled.
- The recursive refresh-and-retry in `play_random`: the model makes a single attempt and reports `AlbumVanished` where the source would refresh and call itself again. The retry is unbounded in the source. `AlbumList.PlayRandom` shows it never fires on an unchanged queue.
- `playlistfind` and `move` are client commands. Their meaning is assumed as stated above and is not derived from MPD. In particular, querying with a list-valued tag (the singleton case can hand one to `playlistfind`) is assumed to match on the tag's first element.
- `get_current_album` indexes the dictionary `currentsong()` returns with `"album"`. That lookup raises `KeyError` in two cases: the dictionary is empty because nothing is current, or the current song has no album tag. The model returns `NothingPlaying` and `NoAlbumTag` as error results instead of raising.
- Client commands are assumed never to fail: `playlistinfo`, `playlistfind`, `currentsong`, `move` and `play` always answer. In the source, a `move` that raises partway through the loop of `shuffle_albums` leaves the albums already moved at the front, with no rollback. That partial state is not modelled.
- Logging calls: they have no effect on the result.
- `AlbumList.__init__` only calls `refresh`. The class state is the `AlbumList` datatype, built by `AlbumList.Refresh`.
- Python's tuple indexing of `defaults` is modelled as a `Credentials` record. A tuple that is too short cannot be expressed.
