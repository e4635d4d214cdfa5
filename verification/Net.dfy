/** Endpoints: their printed form and the parser for it (net.go). */
module Net {
  import opened Wrappers
  import opened Strings

  /** A net.IP that is either nil or an IPv4 address. */
  datatype IP = Nil | V4(a: byte, b: byte, c: byte, d: byte)

  datatype Endpoint = Endpoint(ip: IP, port: uint16)

  datatype EndpointProtocol = EndpointProtocol(endpoint: Endpoint, protocol: string)

  /* ---------- printing ---------- */

  function Octets(ip: IP): seq<string>
    requires ip.V4?
  {
    [Digits(ip.a), Digits(ip.b), Digits(ip.c), Digits(ip.d)]
  }

  /** net.IP.String */
  function IPString(ip: IP): string {
    if ip.Nil? then "<nil>" else Join(Octets(ip), ".")
  }

  /** The key "ip:port"; agents report the port as a plain integer. */
  function KeyString(ip: IP, port: int): string {
    IPString(ip) + ":" + Itoa(port)
  }

  function EndpointString(e: Endpoint): string {
    KeyString(e.ip, e.port)
  }

  function EndpointProtocolString(e: EndpointProtocol): string {
    e.protocol + "://" + EndpointString(e.endpoint)
  }

  function Printed(eps: seq<EndpointProtocol>): (out: seq<string>)
    ensures |out| == |eps|
    ensures forall i :: 0 <= i < |eps| ==> out[i] == EndpointProtocolString(eps[i])
  {
    seq(|eps|, i requires 0 <= i < |eps| => EndpointProtocolString(eps[i]))
  }

  /* ---------- parsing ---------- */

  predicate IsOctet(s: string) {
    s != "" && AllDigits(s) && Number(s) < 0x100
  }

  /** net.ParseIP followed by To4, on text without a colon: a dotted quad or nil. */
  function ParseIPv4(s: string): IP {
    var parts := Split(s, ".");
    if |parts| == 4 && IsOctet(parts[0]) && IsOctet(parts[1]) && IsOctet(parts[2]) && IsOctet(parts[3])
    then V4(Number(parts[0]), Number(parts[1]), Number(parts[2]), Number(parts[3]))
    else Nil
  }

  function TryParseEndpoint(str: string): Result<Endpoint> {
    var parts := Split(str, ":");
    if |parts| != 2 then Err
    else
      match Atoi(parts[1])
      case None => Err
      case Some(port) => Ok(Endpoint(ParseIPv4(parts[0]), port % 0x1_0000)) // uint16(port)
  }

  function TryParseEndpointProtocol(str: string): Result<EndpointProtocol> {
    var parts := Split(str, "://");
    if |parts| != 2 then Err
    else
      match TryParseEndpoint(parts[1])
      case Err => Err
      case Ok(e) => Ok(EndpointProtocol(e, parts[0]))
  }

  /** Apply `f` to each element in turn; the first error wins. */
  function Traverse<A, B>(f: A -> Result<B>, xs: seq<A>): (r: Result<seq<B>>)
    ensures r.Ok? ==> |r.value| == |xs|
  {
    if xs == [] then Ok([])
    else
      match f(xs[0])
      case Err => Err
      case Ok(y) => Prepend([y], Traverse(f, xs[1..]))
  }

  function Prepend<B>(ys: seq<B>, r: Result<seq<B>>): Result<seq<B>> {
    match r
    case Err => Err
    case Ok(rest) => Ok(ys + rest)
  }

  lemma PrependTwice<B>(xs: seq<B>, ys: seq<B>, r: Result<seq<B>>)
    ensures Prepend(xs, Prepend(ys, r)) == Prepend(xs + ys, r)
    ensures Prepend([], r) == r
  {
    if r.Ok? {
      assert xs + (ys + r.value) == xs + ys + r.value;
      assert [] + r.value == r.value;
    }
  }

  lemma {:induction false} TraverseOk<A, B>(f: A -> Result<B>, xs: seq<A>, ys: seq<B>)
    requires |xs| == |ys|
    requires forall i :: 0 <= i < |xs| ==> f(xs[i]) == Ok(ys[i])
    ensures Traverse(f, xs) == Ok(ys)
  {
    if xs != [] {
      TraverseOk(f, xs[1..], ys[1..]);
      assert ys == [ys[0]] + ys[1..];
    }
  }

  lemma {:induction false} TraverseErr<A, B>(f: A -> Result<B>, xs: seq<A>, i: nat)
    requires i < |xs| && f(xs[i]).Err?
    ensures Traverse(f, xs).Err?
  {
    if i > 0 {
      TraverseErr(f, xs[1..], i - 1);
    }
  }

  function ParseAll(pieces: seq<string>): Result<seq<EndpointProtocol>> {
    Traverse(TryParseEndpointProtocol, pieces)
  }

  method TryParseEndpointProtocols(str: string) returns (r: Result<seq<EndpointProtocol>>)
    ensures r == ParseAll(Split(str, ","))
  {
    var splitted := Split(str, ",");
    var eps := [];
    var k := 0;
    assert splitted[0..] == splitted;
    PrependTwice([], [], ParseAll(splitted));
    while k < |splitted|
      invariant 0 <= k <= |splitted|
      invariant ParseAll(splitted) == Prepend(eps, ParseAll(splitted[k..]))
    {
      var ep := TryParseEndpointProtocol(splitted[k]);
      assert splitted[k..][1..] == splitted[k + 1..];
      if ep.Err? {
        return Err;
      }
      PrependTwice(eps, [ep.value], ParseAll(splitted[k + 1..]));
      eps := eps + [ep.value];
      k := k + 1;
    }
    assert splitted[k..] == [] && eps + [] == eps;
    return Ok(eps);
  }

  /* ---------- the printed form determines the endpoint ---------- */

  /** Splitting undoes joining when no part holds the separator. */
  lemma SplitCleanJoin(parts: seq<string>, sep: char)
    requires parts != [] && forall p :: p in parts ==> sep !in p
    ensures Split(Join(parts, [sep]), [sep]) == parts
  {
    SplitOfJoin(parts, [sep]);
    forall p | p in parts ensures !Contains(p, [sep]) {
      ContainsChar(p, sep);
    }
    SplitEachLength(parts, [sep]);
  }

  lemma DottedQuad(ip: IP)
    ensures ParseIPv4(IPString(ip)) == ip
  {
    if ip.V4? {
      SplitCleanJoin(Octets(ip), '.');
      NumberOfDigits(ip.a);
      NumberOfDigits(ip.b);
      NumberOfDigits(ip.c);
      NumberOfDigits(ip.d);
    } else {
      SplitCleanJoin(["<nil>"], '.');
    }
  }

  /** Four octets, each a printed number behind zeros, if any, with dots between them. */
  ghost predicate SpellsQuad(text: string, ip: IP) {
    exists p :: text == Join(p, ".") && AreOctets(p, ip)
  }

  ghost predicate AreOctets(p: seq<string>, ip: IP) {
    && ip.V4? && |p| == 4
    && BehindZeros(p[0], ip.a) && BehindZeros(p[1], ip.b) && BehindZeros(p[2], ip.c) && BehindZeros(p[3], ip.d)
  }

  lemma OctetReads(s: string, n: byte)
    ensures IsOctet(s) && Number(s) == n <==> BehindZeros(s, n)
    ensures BehindZeros(s, n) ==> '.' !in s
  {
    ReadsIffBehindZeros(s, n);
    assert AllDigits(s) ==> '.' !in s;
  }

  lemma QuadSplits(p: seq<string>, ip: IP)
    requires AreOctets(p, ip)
    ensures ParseIPv4(Join(p, ".")) == ip
  {
    OctetReads(p[0], ip.a);
    OctetReads(p[1], ip.b);
    OctetReads(p[2], ip.c);
    OctetReads(p[3], ip.d);
    SplitCleanJoin(p, '.');
  }

  /** Which address a text is read as, by its characters. */
  lemma AddressReads(text: string, ip: IP)
    requires ip.V4?
    ensures ParseIPv4(text) == ip <==> SpellsQuad(text, ip)
  {
    if ParseIPv4(text) == ip {
      var p := Split(text, ".");
      JoinOfSplit(text, ".");
      OctetReads(p[0], ip.a);
      OctetReads(p[1], ip.b);
      OctetReads(p[2], ip.c);
      OctetReads(p[3], ip.d);
      assert AreOctets(p, ip);
    }
    if SpellsQuad(text, ip) {
      var p :| text == Join(p, ".") && AreOctets(p, ip);
      QuadSplits(p, ip);
    }
  }

  /** The printed address is the one text that reads as the address and has no leading zeros; nil has
      a text of its own. */
  lemma PrintedAddressIff(ip: IP, text: string)
    ensures text == IPString(ip) <==>
            if ip.Nil? then text == "<nil>"
            else ParseIPv4(text) == ip && forall p :: p in Split(text, ".") ==> Canonical(p)
  {
    if ip.V4? {
      DottedQuad(ip);
      OctetsSplit(ip);
      var p := Split(text, ".");
      if ParseIPv4(text) == ip && forall s :: s in p ==> Canonical(s) {
        JoinOfSplit(text, ".");
        assert p[0] in p && p[1] in p && p[2] in p && p[3] in p;
        PrintedNumberIff(ip.a, p[0]);
        PrintedNumberIff(ip.b, p[1]);
        PrintedNumberIff(ip.c, p[2]);
        PrintedNumberIff(ip.d, p[3]);
        assert p == Octets(ip);
      }
    }
  }

  lemma OctetsSplit(ip: IP)
    requires ip.V4?
    ensures Split(IPString(ip), ".") == Octets(ip)
    ensures forall p :: p in Octets(ip) ==> Canonical(p)
  {
    SplitCleanJoin(Octets(ip), '.');
    DigitsAreCanonical(ip.a);
    DigitsAreCanonical(ip.b);
    DigitsAreCanonical(ip.c);
    DigitsAreCanonical(ip.d);
  }

  lemma IPStringChars(ip: IP)
    ensures forall c :: c in IPString(ip) ==> IsDigit(c) || c in "<nil>."
  {
    if ip.V4? {
      var o := Octets(ip);
      assert Join(o[3..], ".") == o[3];
      assert Join(o[2..], ".") == o[2] + "." + Join(o[3..], ".") by { assert o[2..][1..] == o[3..]; }
      assert Join(o[1..], ".") == o[1] + "." + Join(o[2..], ".") by { assert o[1..][1..] == o[2..]; }
    }
  }

  lemma SchemeNeedsSlash(s: string)
    ensures Contains(s, "://") ==> '/' in s
  {
    if Contains(s, "://") {
      var i :| 0 <= i <= |s| && OccursAt(s, "://", i);
      assert s[i + 1] == s[i..i + 3][1];
    }
  }

  lemma KeyStringParts(ip: IP, port: int)
    ensures Split(KeyString(ip, port), ":") == [IPString(ip), Itoa(port)]
  {
    var parts := [IPString(ip), Itoa(port)];
    IPStringChars(ip);
    SplitCleanJoin(parts, ':');
    assert Join(parts[1..], ":") == Itoa(port);
  }

  /** The printed endpoint: the printed address, a colon, and the port without leading zeros. */
  lemma PrintedEndpointIff(e: Endpoint, text: string)
    ensures text == EndpointString(e) <==>
            var p := Split(text, ":");
            |p| == 2 && p[0] == IPString(e.ip) && Canonical(p[1]) && Number(p[1]) == e.port
  {
    KeyStringParts(e.ip, e.port);
    var p := Split(text, ":");
    if |p| == 2 {
      PrintedIntegerIff(e.port, p[1]);
      JoinOfSplit(text, ":");
      assert Join(p[1..], ":") == p[1];
    }
    PrintedIntegerIff(e.port, Itoa(e.port));
  }

  /** And with its protocol: scheme separator and endpoint follow the protocol. */
  lemma PrintedWithProtocol(e: EndpointProtocol)
    ensures var text, n := EndpointProtocolString(e), |e.protocol|;
            && |text| == n + 3 + |EndpointString(e.endpoint)|
            && text[..n] == e.protocol && text[n..n + 3] == "://" && text[n + 3..] == EndpointString(e.endpoint)
  {
  }

  lemma KeyStringChars(ip: IP, port: int)
    ensures !Contains(KeyString(ip, port), ",") && !Contains(KeyString(ip, port), "://")
  {
    IPStringChars(ip);
    var key := KeyString(ip, port);
    assert forall c :: c in key ==> IsDigit(c) || c in "<nil>.-:";
    ContainsChar(key, ',');
    SchemeNeedsSlash(key);
  }

  /** The tally's string keys never confuse two (IP, port) pairs, whatever integer the port is. */
  lemma KeyStringInjective(ip1: IP, port1: int, ip2: IP, port2: int)
    ensures KeyString(ip1, port1) == KeyString(ip2, port2) <==> ip1 == ip2 && port1 == port2
  {
    KeyStringParts(ip1, port1);
    KeyStringParts(ip2, port2);
    DottedQuad(ip1);
    DottedQuad(ip2);
    ItoaInjective(port1, port2);
  }

  lemma MemberOccurs(s: string, c: char)
    requires c in s
    ensures Contains(s, [c])
  {
    var i :| 0 <= i < |s| && s[i] == c;
    assert OccursAt(s, [c], i);
  }

  /** What the parser makes of any text: only a missing or second colon and an unreadable port are
      errors. The port wraps to 16 bits and a malformed address becomes nil. */
  lemma ParserIsLenient(text: string, port: string)
    requires ':' !in text
    ensures TryParseEndpoint(text) == Err
    ensures TryParseEndpoint(text + ":" + port)
         == if ':' in port || Atoi(port).None? then Err
            else Ok(Endpoint(ParseIPv4(text), Atoi(port).value % 0x1_0000))
  {
    CommonSeparatorsAreBorderFree();
    ContainsChar(text, ':');
    ContainsChar(port, ':');
    SplitSingle(text, ":");
    SplitSingle(port, ":");
    SplitAppend(text, ":", port);
    if ':' in port {
      MemberOccurs(port, ':');
    }
  }

  ghost predicate ReadsAsIP(text: string, ip: IP) {
    if ip.V4? then SpellsQuad(text, ip) else forall q :: !SpellsQuad(text, q)
  }

  ghost predicate ReadsAsPort(text: string, port: uint16) {
    exists n :: -MAX_INT64 - 1 <= n <= MAX_INT64 && SpellsInteger(text, n) && port == n % 0x1_0000
  }

  lemma ReadsAsIPIff(text: string, ip: IP)
    ensures ParseIPv4(text) == ip <==> ReadsAsIP(text, ip)
  {
    forall q: IP | q.V4? ensures ParseIPv4(text) == q <==> SpellsQuad(text, q) {
      AddressReads(text, q);
    }
  }

  lemma ReadsAsPortIff(text: string, port: uint16)
    ensures Atoi(text).Some? && Atoi(text).value % 0x1_0000 == port <==> ReadsAsPort(text, port)
  {
    if Atoi(text).Some? {
      AtoiReads(text, Atoi(text).value);
    }
    forall n ensures Atoi(text) == Some(n) <==> -MAX_INT64 - 1 <= n <= MAX_INT64 && SpellsInteger(text, n) {
      AtoiReads(text, n);
    }
  }

  /** What the endpoint parser accepts and returns, by the characters of the text; all else is an error. */
  lemma EndpointReads(str: string, e: Endpoint)
    ensures TryParseEndpoint(str) == Ok(e) <==>
            exists text, port :: str == text + ":" + port && ':' !in text && ':' !in port
              && ReadsAsIP(text, e.ip) && ReadsAsPort(port, e.port)
  {
    if TryParseEndpoint(str) == Ok(e) {
      var p := Split(str, ":");
      JoinOfSplit(str, ":");
      PiecesAreClean(str, ":");
      assert Join(p[1..], ":") == p[1];
      assert p[0] in p && p[1] in p;
      NotContained(p[0], ':');
      NotContained(p[1], ':');
      ReadsAsIPIff(p[0], e.ip);
      ReadsAsPortIff(p[1], e.port);
      assert str == p[0] + ":" + p[1];
    }
    if text, port :| str == text + ":" + port && ':' !in text && ':' !in port
                     && ReadsAsIP(text, e.ip) && ReadsAsPort(port, e.port) {
      ParserIsLenient(text, port);
      ReadsAsIPIff(text, e.ip);
      ReadsAsPortIff(port, e.port);
    }
  }

  lemma NotContained(s: string, c: char)
    requires !Contains(s, [c])
    ensures c !in s
  {
    if c in s {
      MemberOccurs(s, c);
    }
  }

  /** With a protocol: the text must hold "://" exactly once; what is before it is the protocol. */
  lemma EndpointProtocolReads(str: string, e: EndpointProtocol)
    ensures TryParseEndpointProtocol(str) == Ok(e) <==>
            exists rest :: str == e.protocol + "://" + rest && !Contains(e.protocol, "://") && !Contains(rest, "://")
              && TryParseEndpoint(rest) == Ok(e.endpoint)
  {
    if TryParseEndpointProtocol(str) == Ok(e) {
      var p := Split(str, "://");
      JoinOfSplit(str, "://");
      PiecesAreClean(str, "://");
      assert Join(p[1..], "://") == p[1];
      assert p[0] in p && p[1] in p;
      assert str == p[0] + "://" + p[1];
    }
    if rest :| str == e.protocol + "://" + rest && !Contains(e.protocol, "://") && !Contains(rest, "://")
               && TryParseEndpoint(rest) == Ok(e.endpoint) {
      SchemeSplits(e.protocol, rest);
    }
  }

  /** A list is read piece by piece, in order, and not at all if one piece is not read. */
  lemma ListReads(pieces: seq<string>, eps: seq<EndpointProtocol>)
    ensures ParseAll(pieces) == Ok(eps) <==>
            |eps| == |pieces| && forall i :: 0 <= i < |pieces| ==> TryParseEndpointProtocol(pieces[i]) == Ok(eps[i])
  {
    if i :| 0 <= i < |pieces| && TryParseEndpointProtocol(pieces[i]).Err? {
      TraverseErr(TryParseEndpointProtocol, pieces, i);
    } else {
      var read := seq(|pieces|, i requires 0 <= i < |pieces| => TryParseEndpointProtocol(pieces[i]).value);
      TraverseOk(TryParseEndpointProtocol, pieces, read);
      if |eps| == |pieces| && forall i :: 0 <= i < |pieces| ==> TryParseEndpointProtocol(pieces[i]) == Ok(eps[i]) {
        assert forall i :: 0 <= i < |pieces| ==> read[i] == eps[i];
        assert eps == read;
      }
    }
  }

  /** Print then parse, for any port the runtime can hold: ports that differ by 65536 read the same. */
  lemma KeyRoundTrip(ip: IP, port: int)
    requires -MAX_INT64 - 1 <= port <= MAX_INT64
    ensures TryParseEndpoint(KeyString(ip, port)) == Ok(Endpoint(ip, port % 0x1_0000))
  {
    var text := IPString(ip);
    assert ':' !in text by { IPStringChars(ip); }
    assert ParseIPv4(text) == ip by { DottedQuad(ip); }
    ParserIsLenient(text, Itoa(port));
    AtoiOfItoa(port);
  }

  /* ---------- the list round trip ---------- */

  predicate PlainProtocol(e: EndpointProtocol) {
    !Contains(e.protocol, ",") && !Contains(e.protocol, "://")
  }

  lemma PrintedParts(e: EndpointProtocol)
    ensures Contains(EndpointProtocolString(e), ",") <==> Contains(e.protocol, ",")
    ensures TryParseEndpointProtocol(EndpointProtocolString(e))
         == if Contains(e.protocol, "://") then Err else Ok(e)
  {
    var key := KeyString(e.endpoint.ip, e.endpoint.port);
    KeyStringChars(e.endpoint.ip, e.endpoint.port);
    CommaInPrinted(e.protocol, key);
    SchemeSplits(e.protocol, key);
    KeyRoundTrip(e.endpoint.ip, e.endpoint.port);
    assert TryParseEndpoint(key) == Ok(e.endpoint);
  }

  /** "://" cannot overlap itself, so a protocol that ends in ":" or ":/" still splits off cleanly. */
  lemma SchemeSplits(protocol: string, key: string)
    requires !Contains(key, "://")
    ensures var parts := Split(protocol + "://" + key, "://");
            if Contains(protocol, "://") then |parts| > 2 else parts == [protocol, key]
  {
    CommonSeparatorsAreBorderFree();
    SplitAppend(protocol, "://", key);
    SplitSingle(protocol, "://");
    SplitSingle(key, "://");
  }

  lemma CommaInPrinted(protocol: string, key: string)
    requires !Contains(key, ",")
    ensures Contains(protocol + "://" + key, ",") <==> Contains(protocol, ",")
  {
    var s := protocol + "://" + key;
    if Contains(protocol, ",") {
      var i :| 0 <= i <= |protocol| && OccursAt(protocol, ",", i);
      assert s[i..i + 1] == protocol[i..i + 1];
      assert OccursAt(s, ",", i);
    }
    if Contains(s, ",") {
      var i :| 0 <= i <= |s| && OccursAt(s, ",", i);
      CommaPosition(protocol, key, i);
    }
  }

  lemma CommaPosition(protocol: string, key: string, i: nat)
    requires OccursAt(protocol + "://" + key, ",", i)
    ensures Contains(protocol, ",") || Contains(key, ",")
  {
    var s := protocol + "://" + key;
    assert s[i] == s[i..i + 1][0] == ',';
    if i < |protocol| {
      assert OccursAt(protocol, ",", i);
    } else {
      assert i >= |protocol| + 3 by {
        assert s[|protocol|] == ':' && s[|protocol| + 1] == '/' && s[|protocol| + 2] == '/';
      }
      assert OccursAt(key, ",", i - |protocol| - 3);
    }
  }

  /** Printing a list, joining with "," and parsing gives the list back exactly when it is non-empty
      and no protocol holds "," or "://". */
  lemma ListRoundTrip(eps: seq<EndpointProtocol>)
    ensures ParseAll(Split(Join(Printed(eps), ","), ",")) == Ok(eps)
       <==> eps != [] && forall e :: e in eps ==> PlainProtocol(e)
  {
    if eps == [] {
      SplitCleanJoin([""], ',');
    } else {
      SplitPrinted(eps);
      ParsePrinted(eps);
    }
  }

  lemma SplitPrinted(eps: seq<EndpointProtocol>)
    requires eps != []
    ensures var pieces := Split(Join(Printed(eps), ","), ",");
            (|pieces| == |eps| <==> forall e :: e in eps ==> !Contains(e.protocol, ","))
            && (|pieces| == |eps| ==> pieces == Printed(eps))
  {
    CommonSeparatorsAreBorderFree();
    var printed := Printed(eps);
    SplitOfJoin(printed, ",");
    SplitEachLength(printed, ",");
    forall i | 0 <= i < |eps| ensures Contains(printed[i], ",") <==> Contains(eps[i].protocol, ",") {
      PrintedParts(eps[i]);
    }
  }

  lemma ParsePrinted(eps: seq<EndpointProtocol>)
    ensures ParseAll(Printed(eps)) == Ok(eps) <==> forall e :: e in eps ==> !Contains(e.protocol, "://")
  {
    forall i | 0 <= i < |eps|
      ensures TryParseEndpointProtocol(Printed(eps)[i])
           == if Contains(eps[i].protocol, "://") then Err else Ok(eps[i])
    {
      PrintedParts(eps[i]);
    }
    if i :| 0 <= i < |eps| && Contains(eps[i].protocol, "://") {
      TraverseErr(TryParseEndpointProtocol, Printed(eps), i);
    } else {
      TraverseOk(TryParseEndpointProtocol, Printed(eps), eps);
    }
  }
}
