/*
 * automap's host[:port] argument: the text before the first separator is the
 * host, the rest an optional port in 0..65535.
 */
module HostPort {
  import opened Wrappers
  import opened Text

  /** A host and a port; ParseHostPort answers ("", 0) for a bad port. */
  datatype HostPort = HostPort(host: string, port: int)

  const Invalid: HostPort := HostPort("", 0)

  /**
   * ParseHostPort with the separator as a parameter. A split at most once
   * always yields one or two parts, so the zero-part branch of the source
   * has no counterpart here.
   */
  function ParseWith(str: string, sep: char, defaultPort: int): (r: HostPort)
    ensures r == HostPort(str, defaultPort) || r == Invalid || (0 <= r.port <= 65535 && sep !in r.host)
  {
    var v := SplitMax(str, sep, 1);
    if |v| == 1 then HostPort(str, defaultPort)
    else match AtoiInt(v[1])
      case None => Invalid
      case Some(port) => if port < 0 || port > 65535 then Invalid else HostPort(v[0], port)
  }

  /** ParseHostPort as written: it splits on ','. */
  function ParseHostPortAsWritten(str: string, defaultPort: int): HostPort
  {
    ParseWith(str, ',', defaultPort)
  }

  /** ParseHostPort splitting on ':', the separator its callers and tests use. */
  function ParseHostPort(str: string, defaultPort: int): HostPort
  {
    ParseWith(str, ':', defaultPort)
  }

  /** Without a separator the whole text is the host and the default port applies. */
  lemma NoSeparator(str: string, sep: char, defaultPort: int)
    requires sep !in str
    ensures ParseWith(str, sep, defaultPort) == HostPort(str, defaultPort)
  {
    SplitMaxOneAbsent(str, sep);
  }

  /**
   * With a separator, the host is everything before the first one and the
   * port is the rest, when that is an int in 0..65535; otherwise ("", 0).
   */
  lemma AtFirstSeparator(host: string, sep: char, rest: string, defaultPort: int)
    requires sep !in host
    ensures var r := ParseWith(host + [sep] + rest, sep, defaultPort);
            match AtoiInt(rest)
            case Some(p) => r == if 0 <= p <= 65535 then HostPort(host, p) else Invalid
            case None => r == Invalid
  {
    SplitMaxOneJoin(host, rest, sep);
  }

  /** Formatting a host and a port as host, separator, decimal port parses back to them. */
  lemma RoundTrip(host: string, sep: char, port: int, defaultPort: int)
    requires sep !in host && 0 <= port <= 65535
    ensures ParseWith(host + [sep] + IntToString(port), sep, defaultPort) == HostPort(host, port)
  {
    AtFirstSeparator(host, sep, IntToString(port), defaultPort);
    AtoiIntToString(port);
  }

  /** As written, "foo:1234" has no ',', so it is all host with the default port. */
  lemma AsWrittenIgnoresColon(defaultPort: int)
    ensures ParseHostPortAsWritten("foo:1234", defaultPort) == HostPort("foo:1234", defaultPort)
  {
    NoSeparator("foo:1234", ',', defaultPort);
  }

  /** As written, "foo:abcd" is not rejected: it is all host with the default port. */
  lemma AsWrittenAcceptsBadPort(defaultPort: int)
    ensures ParseHostPortAsWritten("foo:abcd", defaultPort) == HostPort("foo:abcd", defaultPort)
  {
    NoSeparator("foo:abcd", ',', defaultPort);
  }

  /** With ':' the test's "foo:1234" gives ("foo", 1234). */
  lemma ColonPort(defaultPort: int)
    ensures ParseHostPort("foo:1234", defaultPort) == HostPort("foo", 1234)
  {
    assert "foo:1234" == "foo" + [':'] + "1234";
    assert IntToString(1234) == "1234";
    RoundTrip("foo", ':', 1234, defaultPort);
  }

  /** With ':' the test's "foo" gives ("foo", default). */
  lemma ColonNoPort(defaultPort: int)
    ensures ParseHostPort("foo", defaultPort) == HostPort("foo", defaultPort)
  {
    NoSeparator("foo", ':', defaultPort);
  }

  /** A port that starts with neither a blank, a sign nor a digit is rejected. */
  lemma NotANumber(host: string, sep: char, rest: string, defaultPort: int)
    requires sep !in host
    requires |rest| > 0 && !IsAsciiSpace(rest[0]) && !IsAsciiSpace(rest[|rest| - 1])
    requires rest[0] != '-' && rest[0] != '+' && !IsDigit(rest[0])
    ensures ParseWith(host + [sep] + rest, sep, defaultPort) == Invalid
  {
    AtFirstSeparator(host, sep, rest, defaultPort);
    TrimLeftNone(rest);
    TrimRightNone(rest);
  }

  /** With ':' the test's "foo:abcd" gives ("", 0). */
  lemma ColonBadPort(defaultPort: int)
    ensures ParseHostPort("foo:abcd", defaultPort) == Invalid
  {
    assert "foo:abcd" == "foo" + [':'] + "abcd";
    NotANumber("foo", ':', "abcd", defaultPort);
  }
}
