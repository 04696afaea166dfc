/** Host and port texts, as Go's net package splits and joins them. */
module HostPorts {
  import opened Sequences
  import opened Text
  import opened Wrappers

  datatype HostPort = HostPort(host: string, port: string)

  function JoinHostPort(host: string, port: string): string {
    if ':' in host then "[" + host + "]:" + port else host + ":" + port
  }

  predicate Bracketed(s: string) {
    s != "" && s[0] == '['
  }

  /** net.SplitHostPort, its several errors as none. */
  function SplitHostPort(s: string): Option<HostPort> {
    var i := LastIndex(s, ':');
    if i < 0 then None
    else if Bracketed(s) then
      var end := IndexOf(s, ']');
      if end + 1 != i || '[' in s[1..] || ']' in s[end + 1..] then None
      else Some(HostPort(s[1..end], s[i + 1..]))
    else if ':' in s[..i] || '[' in s || ']' in s then None
    else Some(HostPort(s[..i], s[i + 1..]))
  }

  predicate NoBrackets(s: string) {
    '[' !in s && ']' !in s
  }

  lemma SplitOfPlain(host: string, port: string)
    requires NoBrackets(host) && NoBrackets(port) && ':' !in host && ':' !in port
    ensures SplitHostPort(host + ":" + port) == Some(HostPort(host, port))
  {
    var s := host + ":" + port;
    LastIndexAt(s, ':', |host|);
    assert s[..|host|] == host && s[|host| + 1..] == port;
  }

  lemma SplitOfBracketed(host: string, port: string)
    requires NoBrackets(host) && NoBrackets(port) && ':' !in port
    ensures SplitHostPort("[" + host + "]:" + port) == Some(HostPort(host, port))
  {
    var s := "[" + host + "]:" + port;
    var end := |host| + 1;
    assert s[1..end] == host && s[end + 1..] == ":" + port && s[end + 2..] == port;
    assert s[1..] == host + "]:" + port;
    assert s[..end] == "[" + host;
    IndexOfFirst(s, ']', end);
    LastIndexAt(s, ':', end + 1);
  }

  /** Whatever splits was written as one of the two forms. */
  lemma SplitIsJoined(s: string)
    requires SplitHostPort(s).Some?
    ensures var hp := SplitHostPort(s).value;
      && NoBrackets(hp.host)
      && NoBrackets(hp.port)
      && ':' !in hp.port
      && if Bracketed(s) then s == "[" + hp.host + "]:" + hp.port else ':' !in hp.host && s == hp.host + ":" + hp.port
  {
    hide IndexOf, LastIndex;
    var i := LastIndex(s, ':');
    assert ':' !in s[i + 1..];
    if Bracketed(s) {
      var end := IndexOf(s, ']');
      assert s == "[" + s[1..end] + "]:" + s[end + 2..];
    } else {
      assert s == s[..i] + ":" + s[i + 1..];
    }
  }

  /** Splitting undoes joining exactly when no brackets occur and the port has no colon. */
  lemma JoinSplits(host: string, port: string)
    ensures SplitHostPort(JoinHostPort(host, port)) == Some(HostPort(host, port))
      <==> NoBrackets(host) && NoBrackets(port) && ':' !in port
  {
    if NoBrackets(host) && NoBrackets(port) && ':' !in port {
      if ':' in host {
        SplitOfBracketed(host, port);
      } else {
        SplitOfPlain(host, port);
      }
    } else if SplitHostPort(JoinHostPort(host, port)).Some? {
      SplitIsJoined(JoinHostPort(host, port));
    }
  }

  /** The text is host:port or [host]:port. */
  predicate WritesHostPort(s: string, host: string, port: string) {
    && NoBrackets(host)
    && NoBrackets(port)
    && ':' !in port
    && (s == "[" + host + "]:" + port || (':' !in host && s == host + ":" + port))
  }

  /** A text splits into exactly the host and port it is written from. */
  lemma SplitExactly(s: string, host: string, port: string)
    ensures SplitHostPort(s) == Some(HostPort(host, port)) <==> WritesHostPort(s, host, port)
  {
    hide SplitHostPort;
    if SplitHostPort(s).Some? {
      SplitIsJoined(s);
    }
    if WritesHostPort(s, host, port) {
      if s == "[" + host + "]:" + port {
        SplitOfBracketed(host, port);
      } else {
        SplitOfPlain(host, port);
      }
    }
  }
}
