/**
 When the byte stream under the list hash determines the list (loadbalancer.go). The stream has no
 separators, so reading it back is reading a text over the code words written for names and addresses.
 */
module Decodability {
  import opened Wrappers
  import opened Strings
  import opened Net
  import opened LoadbalancerLists

  datatype Token = Name(name: string) | Address(endpoint: Endpoint)

  function TokenBytes(t: Token): string {
    match t
    case Name(n) => n
    case Address(e) => EndpointBytes(e)
  }

  function Bytes(ts: seq<Token>): string {
    if ts == [] then "" else TokenBytes(ts[0]) + Bytes(ts[1..])
  }

  function AddressTokens(eps: seq<EndpointProtocol>): (ts: seq<Token>)
    ensures |ts| == |eps|
    ensures forall i :: 0 <= i < |eps| ==> ts[i] == Address(eps[i].endpoint)
  {
    seq(|eps|, i requires 0 <= i < |eps| => Address(eps[i].endpoint))
  }

  function Tokens(lbs: seq<Loadbalancer>): seq<Token> {
    if lbs == [] then []
    else [Name(lbs[0].name)] + AddressTokens(lbs[0].endpoints) + Tokens(lbs[1..])
  }

  lemma {:induction false} BytesAppend(ts: seq<Token>, us: seq<Token>)
    ensures Bytes(ts + us) == Bytes(ts) + Bytes(us)
  {
    if ts == [] {
      assert ts + us == us;
    } else {
      assert (ts + us)[1..] == ts[1..] + us;
      BytesAppend(ts[1..], us);
    }
  }

  lemma {:induction false} TokensAppend(a: seq<Loadbalancer>, b: seq<Loadbalancer>)
    ensures Tokens(a + b) == Tokens(a) + Tokens(b)
  {
    if a == [] {
      assert a + b == b;
    } else {
      assert (a + b)[1..] == a[1..] + b;
      TokensAppend(a[1..], b);
    }
  }

  lemma OneToken(t: Token)
    ensures Bytes([t]) == TokenBytes(t)
  {
    assert Bytes([t]) == TokenBytes(t) + Bytes([]);
  }

  lemma AddressTokensSnoc(eps: seq<EndpointProtocol>)
    requires eps != []
    ensures AddressTokens(eps) == AddressTokens(eps[..|eps| - 1]) + [Address(eps[|eps| - 1].endpoint)]
  {
  }

  lemma {:induction false} AddressTokensBytes(eps: seq<EndpointProtocol>)
    ensures Bytes(AddressTokens(eps)) == EndpointsBytes(eps)
  {
    if eps != [] {
      var n := |eps| - 1;
      var last := Address(eps[n].endpoint);
      AddressTokensBytes(eps[..n]);
      AddressTokensSnoc(eps);
      BytesAppend(AddressTokens(eps[..n]), [last]);
      OneToken(last);
    }
  }

  lemma OneTokenBytes(lb: Loadbalancer)
    ensures Bytes(Tokens([lb])) == lb.name + EndpointsBytes(lb.endpoints)
  {
    var name, rest := [Name(lb.name)], AddressTokens(lb.endpoints);
    assert Tokens([lb]) == name + rest;
    BytesAppend(name, rest);
    assert Bytes(name) == lb.name + Bytes([]);
    AddressTokensBytes(lb.endpoints);
  }

  lemma {:induction false} EncodeIsTokenBytes(lbs: seq<Loadbalancer>)
    ensures Encode(lbs) == Bytes(Tokens(lbs))
  {
    if lbs != [] {
      var n := |lbs| - 1;
      var lb := lbs[n];
      EncodeIsTokenBytes(lbs[..n]);
      TokensAppend(lbs[..n], [lb]);
      assert lbs == lbs[..n] + [lb];
      BytesAppend(Tokens(lbs[..n]), Tokens([lb]));
      OneTokenBytes(lb);
      Associative(Encode(lbs[..n]), lb.name, EndpointsBytes(lb.endpoints));
    }
  }

  /** Equal except for the endpoint protocols, which the hash never sees. */
  predicate SameUpToProtocol(a: seq<Loadbalancer>, b: seq<Loadbalancer>) {
    |a| == |b| && forall i :: 0 <= i < |a| ==>
      a[i].name == b[i].name && AddressTokens(a[i].endpoints) == AddressTokens(b[i].endpoints)
  }

  function LeadingAddresses(ts: seq<Token>): nat {
    if ts == [] || ts[0].Name? then 0 else 1 + LeadingAddresses(ts[1..])
  }

  lemma {:induction false} LeadingAddressesOf(xs: seq<Token>, lbs: seq<Loadbalancer>)
    requires forall t :: t in xs ==> t.Address?
    ensures LeadingAddresses(xs + Tokens(lbs)) == |xs|
  {
    if xs == [] {
      assert xs + Tokens(lbs) == Tokens(lbs);
    } else {
      assert (xs + Tokens(lbs))[0] == xs[0] && xs[0] in xs;
      assert (xs + Tokens(lbs))[1..] == xs[1..] + Tokens(lbs);
      LeadingAddressesOf(xs[1..], lbs);
    }
  }

  /** A loadbalancer's tokens can be read back off the front of the token sequence. */
  lemma HeadOfTokens(lb: Loadbalancer, rest: seq<Loadbalancer>)
    ensures var ts, xs := Tokens([lb] + rest), AddressTokens(lb.endpoints);
            && ts[0] == Name(lb.name)
            && LeadingAddresses(ts[1..]) == |xs|
            && ts[1..][..|xs|] == xs
            && ts[1..][|xs|..] == Tokens(rest)
  {
    var xs := AddressTokens(lb.endpoints);
    assert ([lb] + rest)[1..] == rest;
    assert Tokens([lb] + rest)[1..] == xs + Tokens(rest);
    LeadingAddressesOf(xs, rest);
  }

  lemma {:induction false} TokensDetermineList(a: seq<Loadbalancer>, b: seq<Loadbalancer>)
    ensures Tokens(a) == Tokens(b) <==> SameUpToProtocol(a, b)
  {
    if a != [] && b != [] {
      assert a == [a[0]] + a[1..] && b == [b[0]] + b[1..];
      HeadOfTokens(a[0], a[1..]);
      HeadOfTokens(b[0], b[1..]);
      TokensDetermineList(a[1..], b[1..]);
      SameUpToProtocolCons(a, b);
    }
  }

  lemma SameUpToProtocolCons(a: seq<Loadbalancer>, b: seq<Loadbalancer>)
    requires a != [] && b != []
    ensures SameUpToProtocol(a, b) <==>
            a[0].name == b[0].name && AddressTokens(a[0].endpoints) == AddressTokens(b[0].endpoints)
            && SameUpToProtocol(a[1..], b[1..])
  {
    assert forall i :: 0 < i < |a| ==> a[i] == a[1..][i - 1];
    assert forall i :: 0 < i < |b| ==> b[i] == b[1..][i - 1];
  }

  /* ---------- two readings of the same bytes ---------- */

  /** What can be left over when the same bytes are read in two ways that differ from the first token
      on: `w` is what the longer reading has written beyond the shorter one, after `k` more tokens. */
  ghost predicate LeftOver(all: set<Token>, w: string, k: nat)
    decreases k
  {
    if k == 0 then exists x, y :: x in all && y in all && x != y && TokenBytes(x) + w == TokenBytes(y)
    else exists d, t :: LeftOver(all, d, k - 1) && t in all && Continues(d, t, w)
  }

  /** The shorter reading goes on with `t`: it stays behind the left-over `d` or overtakes it. */
  predicate Continues(d: string, t: Token, w: string) {
    TokenBytes(t) + w == d || d + w == TokenBytes(t)
  }

  lemma Previous(all: set<Token>, w: string, k: nat) returns (d: string, t: Token)
    requires k > 0 && LeftOver(all, w, k)
    ensures LeftOver(all, d, k - 1) && t in all && Continues(d, t, w)
  {
    d, t :| LeftOver(all, d, k - 1) && t in all && Continues(d, t, w);
  }

  lemma Next(all: set<Token>, d: string, k: nat, t: Token, w: string)
    requires LeftOver(all, d, k) && t in all && Continues(d, t, w)
    ensures LeftOver(all, w, k + 1)
  {
  }

  /** No token is empty, and no two readings that differ ever end together. */
  ghost predicate Decodable(all: set<Token>) {
    && (forall t :: t in all ==> TokenBytes(t) != "")
    && (forall k: nat :: !LeftOver(all, "", k))
  }

  predicate Over(ts: seq<Token>, all: set<Token>) {
    forall t :: t in ts ==> t in all
  }

  /** The bytes of two readings with different first tokens, the second ahead by `w`. */
  ghost predicate Ahead(all: set<Token>, ts: seq<Token>, us: seq<Token>, w: string) {
    && Over(ts, all) && Over(us, all)
    && ts != [] && us != [] && ts[0] != us[0]
    && Bytes(ts) + w == Bytes(us)
  }

  lemma AheadContinues(all: set<Token>, ts: seq<Token>, us: seq<Token>, d: string, t: Token, w: string)
    requires Ahead(all, ts, us, d) && t in all && Continues(d, t, w)
    ensures Ahead(all, ts + [t], us, w) || Ahead(all, us, ts + [t], w)
  {
    BytesAppend(ts, [t]);
    OneToken(t);
    if TokenBytes(t) + w == d {
      Associative(Bytes(ts), TokenBytes(t), w);
    } else {
      Associative(Bytes(ts), d, w);
    }
  }

  /** Every left-over comes from two readings. */
  lemma {:induction false} LeftOverHasReadings(all: set<Token>, w: string, k: nat)
    returns (ts: seq<Token>, us: seq<Token>)
    requires LeftOver(all, w, k)
    ensures Ahead(all, ts, us, w)
    decreases k
  {
    if k == 0 {
      var x, y :| x in all && y in all && x != y && TokenBytes(x) + w == TokenBytes(y);
      OneToken(x);
      OneToken(y);
      ts, us := [x], [y];
    } else {
      var d, t := Previous(all, w, k);
      ts, us := LeftOverHasReadings(all, d, k - 1);
      AheadContinues(all, ts, us, d, t, w);
      if Ahead(all, ts + [t], us, w) {
        ts := ts + [t];
      } else {
        ts, us := us, ts + [t];
      }
    }
  }

  /** The next token of the shorter reading leaves something over for one side or the other. */
  lemma NextLeftOver(all: set<Token>, w: string, k: nat, t: Token, more: string, other: string) returns (rest: string)
    requires LeftOver(all, w, k) && t in all && TokenBytes(t) + more == w + other
    ensures LeftOver(all, rest, k + 1)
    ensures more == rest + other || other == rest + more
  {
    var x := TokenBytes(t);
    CommonPrefix(x, more, w, other);
    rest := if x <= w then w[|x|..] else x[|w|..];
    assert x + rest == w || w + rest == x;
    Next(all, w, k, t, rest);
  }

  lemma FirstRead(all: set<Token>, r: seq<Token>, text: string)
    requires Over(r, all) && Bytes(r) == text && text != ""
    ensures r != [] && r[0] in all && Over(r[1..], all) && TokenBytes(r[0]) + Bytes(r[1..]) == text
  {
    assert r[0] in r;
  }

  /** Two readings that go on from a left-over and end together leave nothing over. */
  lemma {:induction false} Chase(all: set<Token>, w: string, k: nat, r: seq<Token>, s: seq<Token>) returns (end: nat)
    requires LeftOver(all, w, k) && Over(r, all) && Over(s, all)
    requires Bytes(r) == w + Bytes(s)
    ensures LeftOver(all, "", end)
    decreases |r| + |s|
  {
    if w == "" {
      end := k;
    } else {
      FirstRead(all, r, w + Bytes(s));
      var rest := NextLeftOver(all, w, k, r[0], Bytes(r[1..]), Bytes(s));
      if Bytes(r[1..]) == rest + Bytes(s) {
        end := Chase(all, rest, k + 1, r[1..], s);
      } else {
        end := Chase(all, rest, k + 1, s, r[1..]);
      }
    }
  }

  lemma CommonPrefix(a: string, rest: string, b: string, rest': string)
    requires a + rest == b + rest'
    ensures a <= b || b <= a
    ensures a <= b ==> rest == b[|a|..] + rest'
    ensures b <= a ==> rest' == a[|b|..] + rest
  {
    var s := a + rest;
    assert a == s[..|a|] && rest == s[|a|..];
    assert b == s[..|b|] && rest' == s[|b|..];
  }

  lemma FirstLeftOver(all: set<Token>, x: Token, y: Token, more: string, other: string) returns (w: string)
    requires x in all && y in all && x != y && TokenBytes(x) + more == TokenBytes(y) + other
    ensures LeftOver(all, w, 0)
    ensures more == w + other || other == w + more
  {
    var a, b := TokenBytes(x), TokenBytes(y);
    CommonPrefix(a, more, b, other);
    w := if a <= b then b[|a|..] else a[|b|..];
    assert a + w == b || b + w == a;
  }

  lemma DifferentHeads(all: set<Token>, ts: seq<Token>, us: seq<Token>) returns (end: nat)
    requires Over(ts, all) && Over(us, all) && ts != [] && us != [] && ts[0] != us[0]
    requires Bytes(ts) == Bytes(us)
    ensures LeftOver(all, "", end)
  {
    assert ts[0] in ts && us[0] in us;
    assert Over(ts[1..], all) && Over(us[1..], all);
    var w := FirstLeftOver(all, ts[0], us[0], Bytes(ts[1..]), Bytes(us[1..]));
    if Bytes(ts[1..]) == w + Bytes(us[1..]) {
      end := Chase(all, w, 0, ts[1..], us[1..]);
    } else {
      end := Chase(all, w, 0, us[1..], ts[1..]);
    }
  }

  /** Over decodable tokens the bytes determine the tokens. */
  lemma {:induction false} BytesInjective(all: set<Token>, ts: seq<Token>, us: seq<Token>)
    requires Decodable(all) && Over(ts, all) && Over(us, all) && Bytes(ts) == Bytes(us)
    ensures ts == us
  {
    assert ts != [] ==> ts[0] in all;
    assert us != [] ==> us[0] in all;
    if ts != [] && us != [] {
      if ts[0] != us[0] {
        var end := DifferentHeads(all, ts, us);
      } else {
        CommonPrefix(TokenBytes(ts[0]), Bytes(ts[1..]), TokenBytes(us[0]), Bytes(us[1..]));
        BytesInjective(all, ts[1..], us[1..]);
        assert ts == [ts[0]] + ts[1..] && us == [us[0]] + us[1..];
      }
    }
  }

  /* ---------- every token sequence that starts with a name is a list ---------- */

  function ListOf(name: string, ts: seq<Token>): (lbs: seq<Loadbalancer>)
    ensures lbs != [] && lbs[0].name == name
    decreases |ts|
  {
    if ts == [] then [Loadbalancer(name, [])]
    else if ts[0].Name? then [Loadbalancer(name, [])] + ListOf(ts[0].name, ts[1..])
    else
      var rest := ListOf(name, ts[1..]);
      [Loadbalancer(name, [EndpointProtocol(ts[0].endpoint, "")] + rest[0].endpoints)] + rest[1..]
  }

  lemma {:induction false} TokensOfListOf(name: string, ts: seq<Token>)
    ensures Tokens(ListOf(name, ts)) == [Name(name)] + ts
    decreases |ts|
  {
    if ts == [] {
      assert Tokens(ListOf(name, ts)[1..]) == [];
    } else if ts[0].Name? {
      var rest := ListOf(ts[0].name, ts[1..]);
      TokensOfListOf(ts[0].name, ts[1..]);
      assert ([Loadbalancer(name, [])] + rest)[1..] == rest;
      assert ts == [ts[0]] + ts[1..];
    } else {
      TokensOfListOf(name, ts[1..]);
      AddressInFront(name, ts[0].endpoint, ListOf(name, ts[1..]), ts[1..]);
      assert ts == [ts[0]] + ts[1..];
    }
  }

  lemma TokensCons(lb: Loadbalancer, rest: seq<Loadbalancer>)
    ensures Tokens([lb] + rest) == [Name(lb.name)] + (AddressTokens(lb.endpoints) + Tokens(rest))
  {
    assert ([lb] + rest)[1..] == rest;
    Associative([Name(lb.name)], AddressTokens(lb.endpoints), Tokens(rest));
  }

  lemma SameTail(t: Token, xs: seq<Token>, ys: seq<Token>)
    requires [t] + xs == [t] + ys
    ensures xs == ys
  {
    assert ([t] + xs)[1..] == xs && ([t] + ys)[1..] == ys;
  }

  lemma AddressInFront(name: string, e: Endpoint, lbs: seq<Loadbalancer>, ts: seq<Token>)
    requires lbs != [] && lbs[0].name == name && Tokens(lbs) == [Name(name)] + ts
    ensures Tokens([Loadbalancer(name, [EndpointProtocol(e, "")] + lbs[0].endpoints)] + lbs[1..])
         == [Name(name)] + ([Address(e)] + ts)
  {
    var first := Loadbalancer(name, [EndpointProtocol(e, "")] + lbs[0].endpoints);
    var xs, more := AddressTokens(lbs[0].endpoints), Tokens(lbs[1..]);
    assert lbs == [lbs[0]] + lbs[1..];
    TokensCons(lbs[0], lbs[1..]);
    SameTail(Name(name), xs + more, ts);
    TokensCons(first, lbs[1..]);
    assert AddressTokens(first.endpoints) == [Address(e)] + xs;
    Associative([Address(e)], xs, more);
  }

  /* ---------- the exact condition ---------- */

  /** No two lists over these names and addresses feed the same bytes to the hash. */
  ghost predicate Unambiguous(all: set<Token>) {
    forall a, b :: Over(Tokens(a), all) && Over(Tokens(b), all) && Encode(a) == Encode(b) ==> SameUpToProtocol(a, b)
  }

  /** Two token sequences with the same bytes, put behind a name, are two lists with the same stream. */
  lemma AmbiguousTokens(all: set<Token>, name: string, ts: seq<Token>, us: seq<Token>)
    requires Name(name) in all && Over(ts, all) && Over(us, all) && ts != us && Bytes(ts) == Bytes(us)
    ensures !Unambiguous(all)
  {
    var a, b := ListOf(name, ts), ListOf(name, us);
    TokensOfListOf(name, ts);
    TokensOfListOf(name, us);
    EncodeIsTokenBytes(a);
    EncodeIsTokenBytes(b);
    BytesAppend([Name(name)], ts);
    BytesAppend([Name(name)], us);
    assert Tokens(a)[1..] == ts && Tokens(b)[1..] == us;
    TokensDetermineList(a, b);
    assert Over(Tokens(a), all) && Over(Tokens(b), all);
  }

  /** On lists over decodable tokens the stream determines the list up to `Protocol`. */
  lemma EncodeUniquelyDecodable(all: set<Token>, a: seq<Loadbalancer>, b: seq<Loadbalancer>)
    requires Decodable(all) && Over(Tokens(a), all) && Over(Tokens(b), all)
    ensures Encode(a) == Encode(b) <==> SameUpToProtocol(a, b)
  {
    EncodeIsTokenBytes(a);
    EncodeIsTokenBytes(b);
    TokensDetermineList(a, b);
    if Encode(a) == Encode(b) {
      BytesInjective(all, Tokens(a), Tokens(b));
    }
  }

  /** The exact condition: the lists over a set of names and addresses have streams of their own if and
      only if the set is decodable. */
  lemma UnambiguousIffDecodable(all: set<Token>, name: string)
    requires Name(name) in all
    ensures Unambiguous(all) <==> Decodable(all)
  {
    if Decodable(all) {
      forall a, b | Over(Tokens(a), all) && Over(Tokens(b), all) && Encode(a) == Encode(b)
        ensures SameUpToProtocol(a, b)
      {
        EncodeUniquelyDecodable(all, a, b);
      }
    } else if t :| t in all && TokenBytes(t) == "" {
      OneToken(t);
      AmbiguousTokens(all, name, [t], []);
    } else {
      var k: nat :| LeftOver(all, "", k);
      var ts, us := LeftOverHasReadings(all, "", k);
      AmbiguousTokens(all, name, ts, us);
    }
  }

  /* ---------- how to check it ---------- */

  function Suffixes(all: set<Token>): set<string> {
    set t, i | t in all && 0 <= i <= |TokenBytes(t)| :: TokenBytes(t)[i..]
  }

  /** Whatever is left over is the end of something written, so there are finitely many left-overs. */
  lemma {:induction false} LeftOversAreSuffixes(all: set<Token>, w: string, k: nat)
    requires LeftOver(all, w, k)
    ensures w in Suffixes(all)
    decreases k
  {
    if k == 0 {
      var x, y :| x in all && y in all && x != y && TokenBytes(x) + w == TokenBytes(y);
      EndIsSuffix(all, y, TokenBytes(x), w);
    } else {
      var d, t := Previous(all, w, k);
      if d + w == TokenBytes(t) {
        EndIsSuffix(all, t, d, w);
      } else {
        LeftOversAreSuffixes(all, d, k - 1);
        EndOfSuffix(all, d, TokenBytes(t), w);
      }
    }
  }

  lemma EndIsSuffix(all: set<Token>, t: Token, start: string, w: string)
    requires t in all && TokenBytes(t) == start + w
    ensures w in Suffixes(all)
  {
    assert TokenBytes(t)[|start|..] == w;
  }

  lemma EndOfSuffix(all: set<Token>, d: string, start: string, w: string)
    requires d in Suffixes(all) && d == start + w
    ensures w in Suffixes(all)
  {
    var t, i :| t in all && 0 <= i <= |TokenBytes(t)| && TokenBytes(t)[i..] == d;
    assert TokenBytes(t) == TokenBytes(t)[..i] + d;
    Associative(TokenBytes(t)[..i], start, w);
    EndIsSuffix(all, t, TokenBytes(t)[..i] + start, w);
  }

  /** A finite set of left-overs that starts and goes on as they do and never comes out even. */
  ghost predicate Certificate(all: set<Token>, ends: set<string>) {
    && "" !in ends
    && (forall w :: LeftOver(all, w, 0) ==> w in ends)
    && (forall d, t, w :: d in ends && t in all && Continues(d, t, w) ==> w in ends)
  }

  lemma {:induction false} CertificateHolds(all: set<Token>, ends: set<string>, w: string, k: nat)
    requires Certificate(all, ends) && LeftOver(all, w, k)
    ensures w in ends
    decreases k
  {
    if k > 0 {
      var d, t := Previous(all, w, k);
      CertificateHolds(all, ends, d, k - 1);
    }
  }

  ghost predicate LeftOverAtAll(all: set<Token>, w: string) {
    exists k: nat :: LeftOver(all, w, k)
  }

  /** Decodability is decided by the finite set of left-overs. */
  lemma DecodableIffCertified(all: set<Token>)
    ensures Decodable(all) <==>
            (forall t :: t in all ==> TokenBytes(t) != "")
            && exists ends :: ends <= Suffixes(all) && Certificate(all, ends)
  {
    if Decodable(all) {
      var ends := set w | w in Suffixes(all) && LeftOverAtAll(all, w);
      forall w, k: nat | LeftOver(all, w, k) ensures w in ends {
        LeftOversAreSuffixes(all, w, k);
      }
      forall d, t, w | d in ends && t in all && Continues(d, t, w) ensures w in ends {
        var k: nat :| LeftOver(all, d, k);
        Next(all, d, k, t, w);
      }
      assert Certificate(all, ends);
    }
    if ends :| Certificate(all, ends) {
      forall k: nat ensures !LeftOver(all, "", k) {
        if LeftOver(all, "", k) {
          CertificateHolds(all, ends, "", k);
        }
      }
    }
  }

  /** Nothing is empty, and nothing is written as a prefix of something else. */
  ghost predicate PrefixCode(all: set<Token>) {
    && (forall t :: t in all ==> TokenBytes(t) != "")
    && (forall t, u :: t in all && u in all && TokenBytes(t) <= TokenBytes(u) ==> t == u)
  }

  lemma {:induction false} NothingLeftOver(all: set<Token>, w: string, k: nat)
    requires PrefixCode(all)
    ensures !LeftOver(all, w, k)
    decreases k
  {
    if k == 0 {
      forall x, y | x in all && y in all && TokenBytes(x) + w == TokenBytes(y) ensures x == y {
        assert TokenBytes(x) <= TokenBytes(y);
      }
    } else if d, t :| LeftOver(all, d, k - 1) && t in all && Continues(d, t, w) {
      NothingLeftOver(all, d, k - 1);
    }
  }

  lemma PrefixCodeIsDecodable(all: set<Token>)
    requires PrefixCode(all)
    ensures Decodable(all)
  {
    forall k: nat ensures !LeftOver(all, "", k) {
      NothingLeftOver(all, "", k);
    }
  }

  /** Non-empty names, none a prefix of another, IPv4 addresses, and no name that starts with the first
      octet of an address. */
  ghost predicate Separated(ts: set<Token>) {
    && (forall t :: t in ts && t.Name? ==> t.name != "")
    && (forall t, u :: t in ts && u in ts && t.Name? && u.Name? && t.name <= u.name ==> t == u)
    && (forall t :: t in ts && t.Address? ==> t.endpoint.ip.V4?)
    && (forall t, u :: t in ts && u in ts && t.Name? && u.Address? ==> t.name[0] != u.endpoint.ip.a as char)
  }

  lemma SeparatedIsDecodable(ts: set<Token>)
    requires Separated(ts)
    ensures PrefixCode(ts) && Decodable(ts)
  {
    forall t, u | t in ts && u in ts && TokenBytes(t) <= TokenBytes(u) ensures t == u {
      assert TokenBytes(t) != "" && TokenBytes(t)[0] == TokenBytes(u)[0];
      if t.Address? && u.Address? {
        SameEndpoint(t.endpoint, u.endpoint);
      }
    }
    PrefixCodeIsDecodable(ts);
  }

  lemma SameEndpoint(e: Endpoint, e': Endpoint)
    requires e.ip.V4? && e'.ip.V4?
    requires EndpointBytes(e) == EndpointBytes(e')
    ensures e == e'
  {
    var x, y := EndpointBytes(e), EndpointBytes(e');
    assert x[0] == y[0] && x[1] == y[1] && x[2] == y[2] && x[3] == y[3] && x[4] == y[4] && x[5] == y[5];
  }

  /** It can fail: a name may spell an endpoint of the loadbalancer before it. */
  lemma NamesCanSpellEndpoints(name: string, e1: EndpointProtocol, e2: EndpointProtocol, e3: EndpointProtocol)
    ensures var a := [Loadbalancer(name, [e1, e2, e3])];
            var b := [Loadbalancer(name, [e1]), Loadbalancer(EndpointBytes(e2.endpoint), [e3])];
            Encode(a) == Encode(b) && !SameUpToProtocol(a, b)
  {
    var n2 := EndpointBytes(e2.endpoint);
    var a := [Loadbalancer(name, [e1, e2, e3])];
    var b := [Loadbalancer(name, [e1]), Loadbalancer(n2, [e3])];
    var x1, x2, x3 := Address(e1.endpoint), Address(e2.endpoint), Address(e3.endpoint);
    EncodeIsTokenBytes(a);
    EncodeIsTokenBytes(b);
    assert Tokens(a) == [Name(name), x1] + [x2] + [x3];
    assert Tokens(b) == [Name(name), x1] + [Name(n2)] + [x3] by {
      assert Tokens(b[1..]) == [Name(n2), x3];
    }
    BytesAppend([Name(name), x1] + [x2], [x3]);
    BytesAppend([Name(name), x1], [x2]);
    BytesAppend([Name(name), x1] + [Name(n2)], [x3]);
    BytesAppend([Name(name), x1], [Name(n2)]);
    assert Bytes([x2]) == n2 + Bytes([]) && Bytes([Name(n2)]) == n2 + Bytes([]);
  }

  /** A name that spells an address makes every set with both ambiguous, and so does an empty name. */
  lemma SpelledNamesAreAmbiguous(all: set<Token>, name: string, e: Endpoint)
    requires Name(name) in all
    requires (Name(EndpointBytes(e)) in all && Address(e) in all) || name == ""
    ensures !Unambiguous(all)
  {
    if name != "" {
      var x, y := Name(EndpointBytes(e)), Address(e);
      assert TokenBytes(x) + "" == TokenBytes(y);
      assert LeftOver(all, "", 0);
    } else {
      assert TokenBytes(Name(name)) == "";
    }
    UnambiguousIffDecodable(all, name);
  }
}
