/**
 * The ingress: it reads a head from a bounded, buffered connection, dials the
 * pinned port and forwards everything after the head, however the reads come
 * in pieces.
 */
module Ingress {
  import opened Heads
  import opened IngressHeads
  import opened Text
  import opened Wrappers

  const MAX_INGRESS_HEAD := 0x2000

  // ---- the pinned ports ----

  predicate PortField(field: string) {
    ParsePort(TrimSpace(field)).Some?
  }

  predicate FirstFault(fields: seq<string>, i: int) {
    0 <= i < |fields| && !PortField(fields[i]) && forall j | 0 <= j < i :: PortField(fields[j])
  }

  /** The comma-separated ports; the first field that is not a port is the error. */
  method ParsePinnedPorts(value: string) returns (r: Result<set<nat>, string>)
    ensures value == "" ==> r == Success({})
    ensures r.Success? && value != "" ==>
      && (forall f | f in Split(value, ',') :: PortField(f) && ParsePort(TrimSpace(f)).value in r.value)
      && (forall n | n in r.value :: exists f :: f in Split(value, ',') && ParsePort(TrimSpace(f)) == Some(n))
    ensures r.Failure? ==> value != "" && exists i :: FirstFault(Split(value, ','), i) && Split(value, ',')[i] == r.error
  {
    if value == "" {
      return Success({});
    }
    var fields := Split(value, ',');
    var pinned: set<nat> := {};
    for i := 0 to |fields|
      invariant forall j | 0 <= j < i :: PortField(fields[j]) && ParsePort(TrimSpace(fields[j])).value in pinned
      invariant forall n | n in pinned :: exists f :: f in fields && ParsePort(TrimSpace(f)) == Some(n)
    {
      var number := ParsePort(TrimSpace(fields[i]));
      if number.None? {
        assert FirstFault(fields, i);
        return Failure(fields[i]);
      }
      pinned := pinned + {number.value};
    }
    return Success(pinned);
  }

  // ---- reading ----

  /** The gateway's side of the stream: the bytes it will still deliver before it stops. */
  class Conn {
    var rest: string

    constructor (stream: string)
      ensures rest == stream
    {
      rest := stream;
    }

    /** Some of the bytes, at most max; none only when none are left or none are wanted. */
    method Read(max: nat) returns (chunk: string)
      modifies this
      ensures |chunk| <= max && old(rest) == chunk + rest
      ensures chunk == "" ==> max == 0 || rest == ""
    {
      if max == 0 || rest == "" {
        return "";
      }
      var n: nat :| 1 <= n <= max && n <= |rest|;
      chunk := rest[..n];
      rest := rest[n..];
    }
  }

  /** bufio.NewReader over io.LimitReader. */
  class BufferedReader {
    const conn: Conn
    var remaining: nat  // of the limited reader
    var buffered: string

    constructor (conn: Conn, limit: nat)
      ensures this.conn == conn && buffered == "" && remaining == limit
    {
      this.conn := conn;
      remaining := limit;
      buffered := "";
    }

    ghost function Bound(): (n: nat)
      reads this, conn
      ensures n <= |conn.rest|
    {
      if remaining <= |conn.rest| then remaining else |conn.rest|
    }

    /** What can still be read through the bound. */
    ghost function Reachable(): string
      reads this, conn
    {
      buffered + conn.rest[..Bound()]
    }

    /** What the peer sends after that. */
    ghost function Beyond(): string
      reads this, conn
    {
      conn.rest[Bound()..]
    }

    /** Moves some bytes from the connection to the buffer; false when none are left within the bound. */
    method Fill() returns (more: bool)
      modifies this, conn
      ensures Reachable() == old(Reachable()) && Beyond() == old(Beyond())
      ensures more ==> |conn.rest| < |old(conn.rest)|
      ensures !more ==> Reachable() == buffered
    {
      ghost var all, was, bound := conn.rest, buffered, Bound();
      var chunk := conn.Read(remaining);
      remaining := remaining - |chunk|;
      buffered := buffered + chunk;
      assert Bound() == bound - |chunk|;
      assert all[..bound] == chunk + conn.rest[..Bound()];
      return chunk != "";
    }

    /** bufio.Reader.ReadString('\n'); none when no newline can be reached. */
    method ReadString() returns (r: Option<string>)
      modifies this, conn
      ensures var s := old(Reachable());
        var i := IndexOf(s, '\n');
        if i < |s|
          then r == Some(s[..i + 1]) && Reachable() == s[i + 1..] && Beyond() == old(Beyond())
          else r.None?
    {
      hide IndexOf;
      ghost var s, beyond := Reachable(), Beyond();
      while '\n' !in buffered
        invariant Reachable() == s && Beyond() == beyond
        decreases |conn.rest|
      {
        var more := Fill();
        if !more && '\n' !in buffered {
          buffered := "";
          return None;
        }
      }
      var i := IndexOf(buffered, '\n');
      assert s[..i] == buffered[..i];
      IndexOfFirst(s, '\n', i);
      assert s[..i + 1] == buffered[..i + 1] && s[i + 1..] == buffered[i + 1..] + conn.rest[..Bound()];
      r := Some(buffered[..i + 1]);
      buffered := buffered[i + 1..];
    }

    /** One line, without its ending. */
    method ReadLine() returns (text: Option<string>)
      modifies this, conn
      ensures match NextLine(old(Reachable()))
        case None => text.None?
        case Some(line) => text == Some(line.text) && Reachable() == line.rest && Beyond() == old(Beyond())
    {
      hide IndexOf, TrimSuffix;
      var line := ReadString();
      if line.None? {
        return None;
      }
      return Some(TrimSuffix(TrimSuffix(line.value, "\n"), "\r"));
    }

    /** What is buffered, then the connection itself without the bound: MultiReader(bufferedBytes(br), conn), copied out. */
    method ForwardRest() returns (forwarded: string)
      modifies conn
      ensures forwarded == old(Reachable()) + old(Beyond())
    {
      forwarded := buffered;
      ghost var all := buffered + conn.rest;
      assert all == Reachable() + Beyond();
      while conn.rest != ""
        invariant forwarded + conn.rest == all
        decreases |conn.rest|
      {
        var chunk := conn.Read(0x8000);
        forwarded := forwarded + chunk;
      }
    }
  }

  /** One head, read line by line as it arrives. */
  method IngressTarget(br: BufferedReader, pinned: set<nat>) returns (outcome: Outcome)
    modifies br, br.conn
    ensures var p := ParseHead(old(br.Reachable()), pinned);
      && outcome == p.outcome
      && (outcome.Accept? ==> br.Reachable() == p.rest && br.Beyond() == old(br.Beyond()))
  {
    hide NextLine, ParseRequestLine, Decide, FieldLine, AfterField;
    var line := br.ReadLine();
    if line.None? {
      return Refuse(400, "malformed-request-line");
    }
    var request := ParseRequestLine(line.value);
    if request.Failure? {
      return request.error;
    }
    var hosts := Hosts(0, "");
    ghost var headers := ReadHeaders(br.Reachable(), hosts);
    while true
      invariant ReadHeaders(br.Reachable(), hosts) == headers
      invariant br.Beyond() == old(br.Beyond())
      decreases |br.Reachable()|
    {
      line := br.ReadLine();
      if line.None? {
        return Refuse(400, "malformed-header");
      }
      if line.value == "" {
        break;
      }
      if !FieldLine(line.value) {
        return Refuse(400, "malformed-header");
      }
      hosts := AfterField(hosts, line.value);
    }
    return Decide(request.value, hosts, pinned);
  }

  // ---- one connection ----

  datatype Reply = Refused(status: nat, reason: string) | DialFailed | Established

  /**
   * One ingress connection: the reply, and what the upstream is sent. dial
   * says which targets can be reached.
   */
  method ServeIngress(conn: Conn, pinned: set<nat>, dial: string -> bool) returns (reply: Reply, forwarded: string)
    modifies conn
    ensures var stream := old(conn.rest);
      var limit := if |stream| <= MAX_INGRESS_HEAD then |stream| else MAX_INGRESS_HEAD;
      var p := ParseHead(stream[..limit], pinned);
      match p.outcome
      case Refuse(status, reason) => reply == Refused(status, reason) && forwarded == ""
      case Accept(target) =>
        if dial(target) then reply == Established && forwarded == p.rest + stream[limit..]
        else reply == DialFailed && forwarded == ""
  {
    hide ParseHead;
    var br := new BufferedReader(conn, MAX_INGRESS_HEAD);
    assert br.Reachable() == conn.rest[..br.Bound()];
    var outcome := IngressTarget(br, pinned);
    if outcome.Refuse? {
      return Refused(outcome.status, outcome.reason), "";
    }
    if !dial(outcome.target) {
      return DialFailed, "";
    }
    forwarded := br.ForwardRest();
    return Established, forwarded;
  }

  /**
   * No byte is lost, repeated or reordered: an accepted stream is a head that
   * fits the bound and whose target is pinned, then exactly what is forwarded.
   */
  lemma ForwardedIsAfterTheHead(stream: string, pinned: set<nat>) returns (h: Head)
    requires var limit := if |stream| <= MAX_INGRESS_HEAD then |stream| else MAX_INGRESS_HEAD;
      ParseHead(stream[..limit], pinned).outcome.Accept?
    ensures var limit := if |stream| <= MAX_INGRESS_HEAD then |stream| else MAX_INGRESS_HEAD;
      var p := ParseHead(stream[..limit], pinned);
      && Acceptable(h, p.outcome.target, pinned)
      && |h.Bytes(p.outcome.target)| <= MAX_INGRESS_HEAD
      && stream == h.Bytes(p.outcome.target) + (p.rest + stream[limit..])
  {
    hide ParseHead, Acceptable;
    var limit := if |stream| <= MAX_INGRESS_HEAD then |stream| else MAX_INGRESS_HEAD;
    h := AcceptedIsAcceptable(stream[..limit], pinned);
    assert stream == stream[..limit] + stream[limit..];
  }

  /** The gateway's stream to a pinned port reaches it whole: everything after the gateway's own head. */
  lemma GatewayStreamIsForwarded(port: nat, pinned: set<nat>, payload: string)
    requires 1 <= port < 0x1_0000 && port in pinned
    ensures var stream := GatewayHead(port) + payload;
      var limit := if |stream| <= MAX_INGRESS_HEAD then |stream| else MAX_INGRESS_HEAD;
      var p := ParseHead(stream[..limit], pinned);
      p.outcome.Accept? && p.rest + stream[limit..] == payload
  {
    hide ParseHead, GatewayHead;
    var head := GatewayHead(port);
    var stream := head + payload;
    var limit := if |stream| <= MAX_INGRESS_HEAD then |stream| else MAX_INGRESS_HEAD;
    GatewayHeadIsAccepted(port, pinned, payload);
    var early := payload[..limit - |head|];
    assert stream[..limit] == head + early && stream[limit..] == payload[limit - |head|..];
    GatewayHeadIsAccepted(port, pinned, early);
  }

  /** The tunnel's target and what it forwards, when the head within the bound is accepted. */
  ghost predicate Tunnels(stream: string, pinned: set<nat>, target: string, forwarded: string) {
    var limit := if |stream| <= MAX_INGRESS_HEAD then |stream| else MAX_INGRESS_HEAD;
    var p := ParseHead(stream[..limit], pinned);
    p.outcome == Accept(target) && forwarded == p.rest + stream[limit..]
  }

  /** A stream is tunneled exactly when it begins with an acceptable head of at most 8192 bytes, and loses only that. */
  lemma TunnelsExactly(stream: string, pinned: set<nat>, target: string, forwarded: string)
    ensures Tunnels(stream, pinned, target, forwarded) <==>
      exists h: Head :: Acceptable(h, target, pinned) && |h.Bytes(target)| <= 8192 && stream == h.Bytes(target) + forwarded
  {
    hide ParseHead, Acceptable;
    var limit := if |stream| <= MAX_INGRESS_HEAD then |stream| else MAX_INGRESS_HEAD;
    if Tunnels(stream, pinned, target, forwarded) {
      var h := ForwardedIsAfterTheHead(stream, pinned);
      assert |h.Bytes(target)| <= 8192;
    }
    if h: Head :| Acceptable(h, target, pinned) && |h.Bytes(target)| <= 8192 && stream == h.Bytes(target) + forwarded {
      var early := forwarded[..limit - |h.Bytes(target)|];
      assert stream[..limit] == h.Bytes(target) + early;
      assert forwarded == early + stream[limit..];
      AcceptableIsAccepted(h, target, pinned, early);
    }
  }
}
