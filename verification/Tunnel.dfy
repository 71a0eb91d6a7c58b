/** The server side of one tunnel connection: an event loop that answers name queries itself and forwards everything
    else to one next hop. Packets arrive decoded; sockets, the resolver and the selection of ready descriptors are the
    environment. */
module Tunnel {

  import Framing
  import opened Decimals

  type Byte = Framing.Byte
  type Bytes = Framing.Bytes

  type Ip = s: Bytes | |s| == 16 witness seq(16, _ => 0)

  datatype Query = Query(ip: Ip, port: nat, payload: Bytes)

  // Name queries

  /** The 32 characters before a domain name. */
  const DNS_HEAD: string := "__m_str_dns_head_32__snakesocks_"

  function Code(c: char): Byte { c as int % 256 }

  function Ascii(s: string): Bytes
  {
    seq(|s|, i requires 0 <= i < |s| => Code(s[i]))
  }

  lemma HeadLength()
    ensures |Ascii(DNS_HEAD)| == 32
  {}

  function Zeros(n: nat): (r: Bytes)
    ensures |r| == n
  {
    seq(n, _ => 0)
  }

  function AssembleDnsQuery(domain: Bytes): Query
  {
    Query(Zeros(16), 0, Ascii(DNS_HEAD) + domain + [0])
  }

  ghost predicate IsDns(q: Query) { forall i | 0 <= i < |q.ip| :: q.ip[i] == 0 }

  /** A query whose destination is all zero is a name query. */
  method IsDnsQuery(q: Query) returns (r: bool)
    ensures r <==> IsDns(q)
  {
    for i := 0 to |q.ip|
      invariant forall j | 0 <= j < i :: q.ip[j] == 0
    {
      if q.ip[i] != 0 {
        return false;
      }
    }
    return true;
  }

  /** The bytes before the first NUL; none when no NUL comes, where the program reads on past the payload. */
  datatype CString = Terminated(text: Bytes) | Unterminated

  function ReadCString(s: Bytes): CString
  {
    if s == [] then Unterminated
    else if s[0] == 0 then Terminated([])
    else
      var r := ReadCString(s[1..]);
      if r.Terminated? then Terminated([s[0]] + r.text) else Unterminated
  }

  function GetDomain(q: Query): CString
  {
    if |q.payload| <= 32 then Terminated([]) else ReadCString(q.payload[32..])
  }

  lemma {:induction false} ReadCStringUpToNul(d: Bytes, rest: Bytes)
    ensures ReadCString(d + [0] + rest).Terminated?
    ensures ReadCString(d + [0] + rest).text <= d
    ensures ReadCString(d + [0] + rest).text == d <==> 0 !in d
  {
    if d != [] {
      assert (d + [0] + rest)[1..] == d[1..] + [0] + rest;
      ReadCStringUpToNul(d[1..], rest);
      assert d == [d[0]] + d[1..];
    }
  }

  lemma {:induction false} ReadsUpToNul(s: Bytes, d: Bytes)
    ensures ReadCString(s) == Terminated(d) <==> 0 !in d && d + [0] <= s
  {
    if s != [] && s[0] != 0 {
      ReadsUpToNul(s[1..], d[if d == [] then 0 else 1..]);
      if d != [] {
        assert d == [d[0]] + d[1..];
        assert d + [0] <= s <==> d[0] == s[0] && d[1..] + [0] <= s[1..];
      }
    }
  }

  /** The domain of any query: what stands between the head and the first NUL behind it, or nothing in a payload that
      ends with the head. */
  lemma DomainExactly(q: Query, domain: Bytes)
    ensures GetDomain(q) == Terminated(domain) <==>
            if |q.payload| <= 32 then domain == [] else 0 !in domain && domain + [0] <= q.payload[32..]
  {
    if |q.payload| > 32 { ReadsUpToNul(q.payload[32..], domain); }
  }

  /** A domain survives assembly and extraction exactly when it holds no NUL. */
  lemma DomainRoundTrip(domain: Bytes)
    ensures GetDomain(AssembleDnsQuery(domain)) == Terminated(domain) <==> 0 !in domain
    ensures IsDns(AssembleDnsQuery(domain))
  {
    HeadLength();
    var q := AssembleDnsQuery(domain);
    assert q.payload[32..] == domain + [0] + [];
    ReadCStringUpToNul(domain, []);
  }

  // Addresses as text

  /** Only the first four bytes matter, as in an embedded IPv4 address. */
  ghost predicate ZeroTail(s: Bytes) { forall j | 4 <= j < |s| :: s[j] == 0 }

  function Numbers(b: Bytes): seq<nat> { seq(|b|, i requires 0 <= i < |b| => b[i] as nat) }

  /** Four decimal numbers with dots, or sixteen with colons. */
  ghost function AddressText(ip: Ip): string
  {
    if ZeroTail(ip) then Joined(Numbers(ip[..4]), '.') else Joined(Numbers(ip), ':')
  }

  lemma JoinedGrows(ip: Ip, i: nat, separator: char)
    requires i < 16
    ensures Joined(Numbers(ip[..i + 1]), separator) ==
            (if i == 0 then "" else Joined(Numbers(ip[..i]), separator) + [separator]) + Digits(ip[i] as nat)
  {
    var all := Numbers(ip[..i + 1]);
    assert all[..i] == Numbers(ip[..i]) && all[i] == ip[i];
    if i == 0 {
      assert "" + Digits(ip[0] as nat) == Digits(ip[0] as nat);
    }
  }

  /** ip_array_to_str: the text that the connect call is given. */
  method IpArrayToStr(ip: Ip) returns (result: string)
    ensures result == AddressText(ip)
  {
    var isV6 := false;
    for i := 4 to 16
      invariant !isV6 && forall j | 4 <= j < i :: ip[j] == 0
    {
      if ip[i] != 0 {
        isV6 := true;
        break;
      }
    }
    var n, separator := if isV6 then 16 else 4, if isV6 then ':' else '.';
    result := "";
    for i := 0 to n
      invariant result == if i == 0 then "" else Joined(Numbers(ip[..i]), separator) + [separator]
    {
      JoinedGrows(ip, i, separator);
      result := result + Digits(ip[i] as nat) + [separator];
    }
    result := result[..|result| - 1];
    assert ip[..16] == ip;
  }

  datatype Option<T> = None | Some(value: T)

  /** The four bytes that a dotted quad stands for. */
  function ReadDotted(text: string): Option<Bytes>
  {
    var p := Parts(text, '.');
    if |p| == 4 && forall i | 0 <= i < 4 :: 0 <= ReadNumber(p[i]) < 256
    then Some([ReadNumber(p[0]), ReadNumber(p[1]), ReadNumber(p[2]), ReadNumber(p[3])])
    else None
  }

  /** What every address literal has: it is a dotted quad, or has the two to eight colons of the forms of section 2.2 of
      RFC 4291. */
  predicate MayBeLiteral(text: string) { ReadDotted(text).Some? || 2 <= Occurrences(text, ':') <= 8 }

  lemma DottedReadBack(ip: Ip)
    requires ZeroTail(ip)
    ensures ReadDotted(AddressText(ip)) == Some(ip[..4])
  {
    var ns, p := Numbers(ip[..4]), Parts(AddressText(ip), '.');
    PartsOfJoined(ns, '.');
    forall i | 0 <= i < 4 ensures ReadNumber(p[i]) == ip[i] { ReadBack(ns[i]); }
    hide ReadNumber, Parts, Joined;
    assert ReadNumber(p[0]) == ip[0] && ReadNumber(p[1]) == ip[1];
    assert ReadNumber(p[2]) == ip[2] && ReadNumber(p[3]) == ip[3];
    assert [ip[0], ip[1], ip[2], ip[3]] == ip[..4];
  }

  lemma {:induction false} NoDots(ns: seq<nat>)
    ensures '.' !in Joined(ns, ':')
  {
    hide Digits;
    if ns != [] {
      DigitsOnly(ns[|ns| - 1]);
      NoDots(ns[..|ns| - 1]);
    }
  }

  /** The text names the address if and only if that is an embedded IPv4 address. A real IPv6 address is written in
      a form that no literal has. */
  lemma TextNamesAddress(ip: Ip)
    ensures ZeroTail(ip) ==> ReadDotted(AddressText(ip)) == Some(ip[..4])
    ensures MayBeLiteral(AddressText(ip)) <==> ZeroTail(ip)
  {
    if ZeroTail(ip) {
      DottedReadBack(ip);
    } else {
      var text := AddressText(ip);
      PartsOfJoined(Numbers(ip), ':');
      PartsCount(text, ':');
      NoDots(Numbers(ip));
      OnePart(text, '.');
    }
  }

  // The event loop

  datatype Resolution = V4(bytes: Bytes) | V6(bytes: Bytes) | Unresolved

  type Address = r: Resolution | (r.V4? ==> |r.bytes| == 4) && (r.V6? ==> |r.bytes| == 16) witness Unresolved

  /** How a write to a socket went: all of it, or an initial part and then an error. */
  datatype WriteOutcome = Complete | Broken(sent: nat)

  /** What one turn of the loop finds on the client's side, and how the resolver, the connection attempt and the writes
      that this may call for would go. */
  datatype FromClient =
    | ClientSilent
    | ClientFails
    | ClientSends(query: Query, resolver: CString -> Address, connects: bool, hopWrite: WriteOutcome, replied: bool)

  /** What it finds at the next hop, if that was connected when the turn began; no data means that it closed. */
  datatype FromHop = HopSilent | HopFails | HopSends(data: Bytes, replied: bool)

  datatype Turn = Turn(client: FromClient, hop: FromHop)

  /** A packet sent back to the client. */
  datatype Reply = DnsReply(ip: Ip, port: nat) | DataReply(data: Bytes)

  datatype Ending = Running | HopClosed | Thrown

  /** What a query asks of the loop: an answer with the address found for its domain, or forwarding. */
  datatype Work = Answer(query: Query, address: Address) | Forward(query: Query)

  /** The 16-byte form of an address: four or sixteen bytes, then zeros. */
  function Embedded(r: Address): Ip
  {
    match r
    case V4(b) => b + Zeros(12)
    case V6(b) => b
    case Unresolved => Zeros(16)
  }

  // What the queries of some turns amount to

  ghost function WorkOf(c: FromClient): Work
    requires c.ClientSends?
  {
    if IsDns(c.query) then Answer(c.query, c.resolver(GetDomain(c.query))) else Forward(c.query)
  }

  /** All the client asked for, in order. */
  ghost function Asked(turns: seq<Turn>): seq<Work>
  {
    if turns == [] then []
    else
      var t := turns[|turns| - 1];
      Asked(turns[..|turns| - 1]) + (if t.client.ClientSends? then [WorkOf(t.client)] else [])
  }

  ghost predicate HasForward(ws: seq<Work>) { exists i | 0 <= i < |ws| :: ws[i].Forward? }

  /** What the next hop said once there was one: data that came in turns which began connected. */
  ghost function HopData(turns: seq<Turn>): seq<Reply>
  {
    if turns == [] then []
    else
      var before, t := turns[..|turns| - 1], turns[|turns| - 1];
      HopData(before) +
      (if t.hop.HopSends? && t.hop.data != [] && HasForward(Asked(before)) then [DataReply(t.hop.data)] else [])
  }

  /** The payloads to be forwarded, joined. */
  function Payloads(ws: seq<Work>): Bytes
  {
    if ws == [] then []
    else Payloads(ws[..|ws| - 1]) + (var w := ws[|ws| - 1]; if w.Forward? then w.query.payload else [])
  }

  /** One reply for each query to be answered. */
  function Answers(ws: seq<Work>): seq<Reply>
  {
    if ws == [] then []
    else
      Answers(ws[..|ws| - 1]) +
      (var w := ws[|ws| - 1]; if w.Answer? then [DnsReply(Embedded(w.address), w.query.port)] else [])
  }

  /** A client's name query is answered, with what the resolver has for its domain; a query that names a destination is
      forwarded. */
  lemma NameQueryIsAnswered(c: FromClient, domain: Bytes)
    requires c.ClientSends?
    ensures c.query == AssembleDnsQuery(domain) && 0 !in domain ==>
              WorkOf(c) == Answer(c.query, c.resolver(Terminated(domain)))
    ensures (exists i | 0 <= i < |c.query.ip| :: c.query.ip[i] != 0) <==> WorkOf(c) == Forward(c.query)
  {
    DomainRoundTrip(domain);
  }

  /** What a single query amounts to, */
  lemma OneWork(q: Query, address: Address)
    ensures Payloads([Forward(q)]) == q.payload && Answers([Forward(q)]) == []
    ensures Payloads([Answer(q, address)]) == []
    ensures address.V4? ==> Answers([Answer(q, address)]) == [DnsReply(address.bytes + Zeros(12), q.port)]
    ensures address.V6? ==> Answers([Answer(q, address)]) == [DnsReply(address.bytes, q.port)]
  {
    assert [Forward(q)][..0] == [] && [Answer(q, address)][..0] == [];
  }

  lemma WorkGrows(ws: seq<Work>, w: Work)
    ensures Payloads(ws + [w]) == Payloads(ws) + (if w.Forward? then w.query.payload else [])
    ensures Answers(ws + [w]) ==
            Answers(ws) + (if w.Answer? then [DnsReply(Embedded(w.address), w.query.port)] else [])
    ensures HasForward(ws + [w]) <==> HasForward(ws) || w.Forward?
  {
    assert (ws + [w])[..|ws|] == ws;
    assert (ws + [w])[|ws|] == w;
    assert forall i | 0 <= i < |ws| :: (ws + [w])[i] == ws[i];
  }

  lemma Associate<T>(a: seq<T>, b: seq<T>, c: seq<T>)
    ensures a + b + c == a + (b + c)
  {}

  /** and that queries after each other amount to what each of them does, in order. */
  lemma {:induction false} WorkAdds(a: seq<Work>, b: seq<Work>)
    ensures Payloads(a + b) == Payloads(a) + Payloads(b) && Answers(a + b) == Answers(a) + Answers(b)
    decreases |b|
  {
    assert Payloads([]) == [] && Answers([]) == [];
    hide Payloads, Answers, Embedded, HasForward;
    if b == [] {
      assert a + b == a && b == [];
    } else {
      var front, w := b[..|b| - 1], b[|b| - 1];
      WorkAdds(a, front);
      WorkGrows(a + front, w);
      WorkGrows(front, w);
      assert a + b == a + front + [w] && b == front + [w];
      Associate(Payloads(a), Payloads(front), if w.Forward? then w.query.payload else []);
      Associate(Answers(a), Answers(front),
                if w.Answer? then [DnsReply(Embedded(w.address), w.query.port)] else []);
    }
  }

  /** The connections opened are none as long as nothing is to be forwarded, then one, to the first such query's
      address, as text, and port. */
  ghost predicate ConnectsToFirst(ws: seq<Work>, connects: seq<(string, nat)>)
  {
    if HasForward(ws)
    then exists i | 0 <= i < |ws| && ws[i].Forward? ::
           && (forall j | 0 <= j < i :: ws[j].Answer?)
           && connects == [(AddressText(ws[i].query.ip), ws[i].query.port)]
    else connects == []
  }

  function OfKind(rs: seq<Reply>, dns: bool): seq<Reply>
  {
    if rs == [] then []
    else
      OfKind(rs[..|rs| - 1], dns) + (var r := rs[|rs| - 1]; if r.DnsReply? == dns then [r] else [])
  }

  // Growing by one

  lemma AskedGrows(turns: seq<Turn>, k: nat)
    requires k < |turns|
    ensures Asked(turns[..k + 1]) ==
            Asked(turns[..k]) + (if turns[k].client.ClientSends? then [WorkOf(turns[k].client)] else [])
    ensures var t := turns[k];
            HopData(turns[..k + 1]) == HopData(turns[..k]) +
            (if t.hop.HopSends? && t.hop.data != [] && HasForward(Asked(turns[..k]))
             then [DataReply(t.hop.data)] else [])
  {
    assert turns[..k + 1][..k] == turns[..k];
  }

  lemma OfKindGrows(rs: seq<Reply>, r: Reply, dns: bool)
    ensures OfKind(rs + [r], dns) == OfKind(rs, dns) + (if r.DnsReply? == dns then [r] else [])
  {
    assert (rs + [r])[..|rs|] == rs;
  }

  lemma ConnectsGrows(ws: seq<Work>, w: Work, connects: seq<(string, nat)>)
    requires ConnectsToFirst(ws, connects)
    ensures ConnectsToFirst(ws + [w],
                            if w.Forward? && connects == []
                            then [(AddressText(w.query.ip), w.query.port)] else connects)
    ensures connects == [] <==> !HasForward(ws)
  {
    var all := ws + [w];
    assert all[|ws|] == w;
    assert forall i | 0 <= i < |ws| :: all[i] == ws[i];
    if HasForward(ws) {
      var i :| 0 <= i < |ws| && ws[i].Forward? && (forall j | 0 <= j < i :: ws[j].Answer?) &&
               connects == [(AddressText(ws[i].query.ip), ws[i].query.port)];
      assert all[i].Forward?;
    } else if w.Forward? {
      assert forall j | 0 <= j < |ws| :: all[j].Answer?;
    }
  }

  /** The connection made so far: none yet is the descriptor -1. */
  datatype Hop = NoHop | HopAt(name: string, port: nat)

  /** The state of one tunnel: the next hop and, as the outside sees them, the bytes written to it, the connections
      opened, the packets returned to the client; `done` records the queries dealt with completely. */
  class Session {
    var hop: Hop
    var toHop: Bytes
    var connects: seq<(string, nat)>
    var replies: seq<Reply>
    ghost var done: seq<Work>

    constructor ()
      ensures hop == NoHop && toHop == [] && connects == [] && replies == [] && done == []
    {
      hop, toHop, connects, replies, done := NoHop, [], [], [], [];
    }

    /** Everything the outside has seen follows from the queries dealt with. */
    ghost predicate Settled()
      reads this
    {
      && toHop == Payloads(done)
      && ConnectsToFirst(done, connects)
      && (hop.HopAt? <==> HasForward(done))
      && OfKind(replies, true) == Answers(done)
    }

    /** The state after an exception while working on `w`: at most a part of its payload and its connection are out. */
    ghost predicate Aborted(w: Work)
      reads this
    {
      && Payloads(done) <= toHop <= Payloads(done + [w])
      && (ConnectsToFirst(done, connects) || ConnectsToFirst(done + [w], connects))
      && OfKind(replies, true) == Answers(done)
    }

    /** A name query: resolve, answer, open nothing. */
    method AnswerQuery(c: FromClient) returns (ok: bool)
      requires c.ClientSends? && IsDns(c.query) && Settled()
      modifies this
      ensures hop == old(hop) && connects == old(connects) && toHop == old(toHop)
      ensures OfKind(replies, false) == old(OfKind(replies, false))
      ensures ok ==> Settled() && done == old(done) + [WorkOf(c)]
      ensures !ok ==> Aborted(WorkOf(c)) && done == old(done)
    {
      WorkGrows(done, WorkOf(c));
      ConnectsGrows(done, WorkOf(c), connects);
      var address := c.resolver(GetDomain(c.query));
      if address.Unresolved? || !c.replied {
        return false;
      }
      var reply := DnsReply(Embedded(address), c.query.port);
      OfKindGrows(replies, reply, true);
      OfKindGrows(replies, reply, false);
      replies, done := replies + [reply], done + [WorkOf(c)];
      ok := true;
    }

    /** A data query: connect if that has not been done, then pass the payload on. */
    method ForwardQuery(c: FromClient) returns (ok: bool)
      requires c.ClientSends? && !IsDns(c.query) && Settled()
      modifies this
      ensures replies == old(replies)
      ensures ok ==> Settled() && done == old(done) + [WorkOf(c)]
      ensures !ok ==> Aborted(WorkOf(c)) && done == old(done)
    {
      hide ConnectsToFirst, HasForward, Payloads, Answers, OfKind, AddressText;
      ghost var w := WorkOf(c);
      WorkGrows(done, w);
      ConnectsGrows(done, w, connects);
      if hop.NoHop? {
        var name := IpArrayToStr(c.query.ip);
        if !c.connects {
          return false;
        }
        hop := HopAt(name, c.query.port);
        connects := connects + [(name, c.query.port)];
      }
      assert connects == (if old(connects) == [] then [(AddressText(w.query.ip), w.query.port)] else old(connects));
      match c.hopWrite
      case Broken(n) =>
        toHop := toHop + c.query.payload[..if n < |c.query.payload| then n else |c.query.payload|];
        ok := false;
      case Complete =>
        toHop := toHop + c.query.payload;
        done := done + [w];
        ok := true;
    }

    /** The client's part of a turn. */
    method ServeClient(c: FromClient) returns (ok: bool)
      requires Settled()
      modifies this
      ensures OfKind(replies, false) == old(OfKind(replies, false))
      ensures ok ==> Settled() && done == old(done) + (if c.ClientSends? then [WorkOf(c)] else [])
      ensures !ok ==> done == old(done) && if c.ClientSends? then Aborted(WorkOf(c)) else Settled()
    {
      hide ConnectsToFirst, Payloads, Answers, AddressText, OfKind, HasForward;
      match c {
        case ClientSilent => ok := true;
        case ClientFails => ok := false;
        case ClientSends(query, _, _, _, _) =>
          var dns := IsDnsQuery(query);
          hide IsDns;
          if dns {
            ok := AnswerQuery(c);
          } else {
            ok := ForwardQuery(c);
          }
      }
    }

    /** The next hop's part of a turn that began connected. */
    method ServeHop(h: FromHop) returns (ending: Ending)
      requires Settled()
      modifies this`replies
      ensures Settled()
      ensures ending == HopClosed <==> h.HopSends? && h.data == []
      ensures OfKind(replies, false) ==
              old(OfKind(replies, false)) + (if ending == Running && h.HopSends? then [DataReply(h.data)] else [])
    {
      hide ConnectsToFirst, Payloads, Answers, AddressText, HasForward;
      match h {
        case HopSilent => ending := Running;
        case HopFails => ending := Thrown;
        case HopSends(data, replied) =>
          if data == [] {
            ending := HopClosed;
          } else if !replied {
            ending := Thrown;
          } else {
            OfKindGrows(replies, DataReply(data), true);
            OfKindGrows(replies, DataReply(data), false);
            replies := replies + [DataReply(data)];
            ending := Running;
          }
      }
    }

    /** The event loop, over any finite run of turns. `taken` turns were entered when it ended. */
    method DealConnection(turns: seq<Turn>) returns (ending: Ending, taken: nat)
      requires Settled() && done == [] && replies == []
      modifies this
      ensures taken <= |turns|
      ensures ending == Running ==> taken == |turns|
      // While it goes on, and when the next hop closes, every query received has been dealt with and every piece of
      // data from the next hop passed on
      ensures ending != Thrown ==>
                && Settled() && done == Asked(turns[..taken])
                && OfKind(replies, false) == HopData(turns[..taken])
      // An exception leaves at most the query or the data of its own turn undone
      ensures ending == Thrown ==> taken > 0
      ensures ending == Thrown ==>
                || (done == Asked(turns[..taken]) && Settled())
                || (exists w :: Asked(turns[..taken]) == done + [w] && Aborted(w))
      ensures ending == Thrown ==>
                OfKind(replies, false) == HopData(turns[..taken - 1]) ||
                OfKind(replies, false) == HopData(turns[..taken])
      ensures ending == HopClosed ==>
                taken > 0 && turns[taken - 1].hop.HopSends? && turns[taken - 1].hop.data == []
    {
      assert OfKind(replies, false) == [];
      hide ConnectsToFirst, Payloads, Answers, AddressText, IsDns, OfKind, Aborted;
      taken, ending := 0, Running;
      assert turns[..0] == [];
      while taken < |turns| && ending == Running
        invariant taken <= |turns|
        invariant ending == Running
        invariant Settled() && done == Asked(turns[..taken])
        invariant OfKind(replies, false) == HopData(turns[..taken])
      {
        var turn := turns[taken];
        var wasConnected := hop.HopAt?;
        AskedGrows(turns, taken);
        taken := taken + 1;
        var ok := ServeClient(turn.client);
        if !ok {
          assert turn.client.ClientSends? ==> Asked(turns[..taken]) == done + [WorkOf(turn.client)];
          ending := Thrown;
          return;
        }
        if wasConnected {
          ending := ServeHop(turn.hop);
          if ending != Running {
            return;
          }
        }
      }
      assert turns[..|turns|] == turns;
    }
  }
}
