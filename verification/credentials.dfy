/** `extract_mpd_credentials`: split a connection string of the form
    `password@host:port` into its parts, starting from a triple of defaults.
    The source unpacks the result of Python's `str.split` into exactly two
    names, which raises when the separator occurs more than once; that case
    is an error result here. */
module Credentials {
  import opened Wrappers

  /** One slot of the source's `(host, port, pw)` triple: `None`, a string
      taken from the connection string, or an integer such as the default
      port. */
  datatype Field = Unset | Text(text: string) | Number(number: int)

  datatype Credentials = Credentials(host: Field, port: Field, password: Field)

  /** Unpacking a split of more than two parts into two names fails. */
  datatype CredError = TooManyValues(sep: char)

  /** The triple the command-line entry point starts from. */
  const DefaultCredentials := Credentials(Text("localhost"), Number(6600), Unset)

  /** Number of occurrences of `c` in `s`. */
  function Count(s: string, c: char): (n: nat)
    ensures n <= |s|
    ensures n == 0 <==> c !in s
    decreases |s|
  {
    if |s| == 0 then 0 else (if s[0] == c then 1 else 0) + Count(s[1..], c)
  }

  /** Python's `s.split(sep)`: the pieces between the occurrences of `sep`,
      one more than there are occurrences, none containing `sep`. */
  function Split(s: string, sep: char): (r: seq<string>)
    ensures |r| == Count(s, sep) + 1
    ensures forall i :: 0 <= i < |r| ==> sep !in r[i]
    decreases |s|
  {
    if |s| == 0 then [""]
    else
      var rest := Split(s[1..], sep);
      if s[0] == sep then [""] + rest
      else [[s[0]] + rest[0]] + rest[1..]
  }

  /** Python's `sep.join(parts)`. */
  function Join(parts: seq<string>, sep: char): string
    requires |parts| > 0
    decreases |parts|
  {
    if |parts| == 1 then parts[0] else parts[0] + [sep] + Join(parts[1..], sep)
  }

  /** A separator in front of a joined list adds an empty first piece. */
  lemma JoinAfterSeparator(t: string, rest: seq<string>, sep: char)
    requires |rest| > 0 && Join(rest, sep) == t
    ensures Join([""] + rest, sep) == [sep] + t
  {
    assert ([""] + rest)[1..] == rest;
  }

  /** A character in front of a joined list extends its first piece. */
  lemma JoinAfterChar(c: char, t: string, rest: seq<string>, sep: char)
    requires |rest| > 0 && Join(rest, sep) == t
    ensures Join([[c] + rest[0]] + rest[1..], sep) == [c] + t
  {
    var r := [[c] + rest[0]] + rest[1..];
    if |rest| > 1 {
      assert r[1..] == rest[1..];
    }
  }

  /** Joining the pieces of a split gives back the string. */
  lemma {:induction false} SplitJoin(s: string, sep: char)
    ensures Join(Split(s, sep), sep) == s
    decreases |s|
  {
    if |s| > 0 {
      var rest := Split(s[1..], sep);
      SplitJoin(s[1..], sep);
      if s[0] == sep {
        JoinAfterSeparator(s[1..], rest, sep);
      } else {
        JoinAfterChar(s[0], s[1..], rest, sep);
      }
      assert [s[0]] + s[1..] == s;
    }
  }

  /** A piece free of the separator, followed by the separator, splits off
      as the first piece. */
  lemma {:induction false} SplitAfterPiece(a: string, sep: char, t: string)
    requires sep !in a
    ensures Split(a + [sep] + t, sep) == [a] + Split(t, sep)
    decreases |a|
  {
    var s := a + [sep] + t;
    if |a| == 0 {
      assert s == [sep] + t;
      assert s[1..] == t;
    } else {
      assert s[0] == a[0] && a[0] in a;
      var rest := Split(s[1..], sep);
      calc {
        Split(s, sep);
        [[a[0]] + rest[0]] + rest[1..];
        { assert s[1..] == a[1..] + [sep] + t;
          SplitAfterPiece(a[1..], sep, t); }
        [[a[0]] + a[1..]] + Split(t, sep);
        { assert [a[0]] + a[1..] == a; }
        [a] + Split(t, sep);
      }
    }
  }

  /** A string free of the separator is a single piece. */
  lemma {:induction false} SplitWhole(a: string, sep: char)
    requires sep !in a
    ensures Split(a, sep) == [a]
    decreases |a|
  {
    if |a| > 0 {
      SplitWhole(a[1..], sep);
      assert [a[0]] + a[1..] == a;
    }
  }

  /** Splitting the join of separator-free pieces gives back the pieces. */
  lemma {:induction false} JoinSplit(parts: seq<string>, sep: char)
    requires |parts| > 0
    requires forall i :: 0 <= i < |parts| ==> sep !in parts[i]
    ensures Split(Join(parts, sep), sep) == parts
    decreases |parts|
  {
    if |parts| == 1 {
      SplitWhole(parts[0], sep);
    } else {
      JoinSplit(parts[1..], sep);
      SplitAfterPiece(parts[0], sep, Join(parts[1..], sep));
      assert [parts[0]] + parts[1..] == parts;
    }
  }

  /** `x, y = s.split(sep)` on a string that contains `sep`. */
  function SplitPair(s: string, sep: char): (r: Result<(string, string), CredError>)
    requires sep in s
    ensures r.Ok? <==> Count(s, sep) == 1
    ensures r.Err? ==> r.error == TooManyValues(sep)
    ensures r.Ok? ==> s == r.value.0 + [sep] + r.value.1
    ensures r.Ok? ==> sep !in r.value.0 && sep !in r.value.1
  {
    var parts := Split(s, sep);
    if |parts| == 2 then
      SplitJoin(s, sep);
      assert parts[1..] == [parts[1]];
      Ok((parts[0], parts[1]))
    else
      Err(TooManyValues(sep))
  }

  /** The triple before the connection string is looked at: the defaults,
      or three `None`s when none are given. */
  function Start(defaults: Option<Credentials>): Credentials
  {
    if defaults.Some? then defaults.value else Credentials(Unset, Unset, Unset)
  }

  /** The host and port part: empty keeps the current host and port,
      `host:port` sets both, and a bare `host` sets only the host. */
  function ParseConnection(con: string, start: Credentials, pw: Field): (r: Result<Credentials, CredError>)
    ensures r.Err? <==> Count(con, ':') > 1
    ensures r.Err? ==> r.error == TooManyValues(':')
    ensures r.Ok? ==> r.value.password == pw
    ensures con == "" ==> r == Ok(Credentials(start.host, start.port, pw))
    ensures con != "" && ':' !in con ==> r == Ok(Credentials(Text(con), start.port, pw))
    ensures r.Ok? && ':' in con ==> exists h, p :: con == h + [':'] + p && r.value.host == Text(h) && r.value.port == Text(p)
  {
    if con == "" then Ok(Credentials(start.host, start.port, pw))
    else if ':' in con then
      match SplitPair(con, ':')
      case Err(e) => Err(e)
      case Ok((h, p)) => Ok(Credentials(Text(h), Text(p), pw))
    else Ok(Credentials(Text(con), start.port, pw))
  }

  /** `extract_mpd_credentials(string, defaults)`. */
  function ExtractMpdCredentials(conn: Option<string>, defaults: Option<Credentials>): (r: Result<Credentials, CredError>)
    ensures conn.None? || conn.value == "" ==> r == Ok(Start(defaults))
    ensures conn.Some? && Count(conn.value, '@') > 1 ==> r == Err(TooManyValues('@'))
    ensures conn.Some? && '@' !in conn.value ==> r == ParseConnection(conn.value, Start(defaults), Start(defaults).password)
    ensures r.Err? ==> r.error == TooManyValues('@') || r.error == TooManyValues(':')
  {
    var start := Start(defaults);
    if conn.None? || conn.value == "" then Ok(start)
    else
      var s := conn.value;
      if '@' in s then
        match SplitPair(s, '@')
        case Err(e) => Err(e)
        case Ok((pw, con)) => ParseConnection(con, start, Text(pw))
      else ParseConnection(s, start, start.password)
  }

  /** The connection string `pw@host:port`. */
  function Render(pw: string, host: string, port: string): string
  {
    pw + "@" + host + ":" + port
  }

  /** Parsing a rendered connection string gives back its three parts,
      whatever the defaults. */
  lemma ExtractRoundTrip(pw: string, host: string, port: string, defaults: Option<Credentials>)
    requires '@' !in pw && '@' !in host && '@' !in port
    requires ':' !in host && ':' !in port
    ensures ExtractMpdCredentials(Some(Render(pw, host, port)), defaults)
         == Ok(Credentials(Text(host), Text(port), Text(pw)))
  {
    var con := host + ":" + port;
    var s := Render(pw, host, port);
    assert s == pw + ['@'] + con;
    JoinSplit([pw, con], '@');
    assert Join([pw, con], '@') == s;
    JoinSplit([host, port], ':');
    assert Join([host, port], ':') == con;
    assert con[|host|] == ':';
  }

  /** `pw@rest` sets the password to the text before `@` and parses the
      rest as the host and port part. */
  lemma ExtractPassword(pw: string, rest: string, defaults: Option<Credentials>)
    requires '@' !in pw && '@' !in rest
    ensures ExtractMpdCredentials(Some(pw + "@" + rest), defaults)
         == ParseConnection(rest, Start(defaults), Text(pw))
  {
    JoinSplit([pw, rest], '@');
    assert Join([pw, rest], '@') == pw + "@" + rest;
  }

  /** `pw@` with an empty host and port part keeps the host and port. */
  lemma ExtractPasswordOnly(pw: string, defaults: Option<Credentials>)
    requires '@' !in pw
    ensures ExtractMpdCredentials(Some(pw + "@"), defaults)
         == Ok(Credentials(Start(defaults).host, Start(defaults).port, Text(pw)))
  {
    ExtractPassword(pw, "", defaults);
    assert pw + "@" + "" == pw + "@";
  }

  /** `host:port` sets both and keeps the password. */
  lemma ExtractHostPort(host: string, port: string, defaults: Option<Credentials>)
    requires '@' !in host && '@' !in port
    requires ':' !in host && ':' !in port
    ensures ExtractMpdCredentials(Some(host + ":" + port), defaults)
         == Ok(Credentials(Text(host), Text(port), Start(defaults).password))
  {
    var con := host + ":" + port;
    JoinSplit([host, port], ':');
    assert Join([host, port], ':') == con;
    assert con[|host|] == ':';
  }

  /** A bare host sets only the host. */
  lemma ExtractHostOnly(host: string, defaults: Option<Credentials>)
    requires host != "" && '@' !in host && ':' !in host
    ensures ExtractMpdCredentials(Some(host), defaults)
         == Ok(Credentials(Text(host), Start(defaults).port, Start(defaults).password))
  {
  }

  /** A host and port part with two or more colons, as in an IPv6 address,
      is an error, with or without a password. */
  lemma ExtractTooManyColons(pw: Option<string>, con: string, defaults: Option<Credentials>)
    requires pw.Some? ==> '@' !in pw.value
    requires '@' !in con && Count(con, ':') > 1
    ensures var s := if pw.Some? then pw.value + "@" + con else con;
      ExtractMpdCredentials(Some(s), defaults) == Err(TooManyValues(':'))
  {
    if pw.Some? {
      ExtractPassword(pw.value, con, defaults);
    }
  }

  /** A port parsed from `host:port` is text, even when it spells the
      default: against the entry point's defaults the port slot changes
      kind, from the number 6600 to the string `port`. */
  lemma ParsedPortIsText(host: string, port: string)
    requires '@' !in host && '@' !in port
    requires ':' !in host && ':' !in port
    ensures var r := ExtractMpdCredentials(Some(host + ":" + port), Some(DefaultCredentials));
      r.Ok? && r.value.port == Text(port) && r.value.port != DefaultCredentials.port
    ensures DefaultCredentials.port.Number?
  {
    ExtractHostPort(host, port, Some(DefaultCredentials));
  }
}
