/** Loadbalancer lists and the byte stream under their change-detection hash (loadbalancer.go). */
module LoadbalancerLists {
  import opened Wrappers
  import opened Strings
  import opened Net

  datatype Loadbalancer = Loadbalancer(name: string, endpoints: seq<EndpointProtocol>)

  datatype LoadbalancerList = LoadbalancerList(lbs: seq<Loadbalancer>, hash: uint64)

  /** xxhash: a function of the bytes written. */
  type Digest = string -> uint64

  /* ---------- the byte stream ---------- */

  function IPBytes(ip: IP): string {
    if ip.Nil? then "" else [ip.a as char, ip.b as char, ip.c as char, ip.d as char]
  }

  /** binary.LittleEndian.PutUint16 */
  function PortBytes(port: uint16): string {
    [(port % 0x100) as char, (port / 0x100) as char]
  }

  function EndpointBytes(e: Endpoint): string {
    IPBytes(e.ip) + PortBytes(e.port)
  }

  function EndpointsBytes(eps: seq<EndpointProtocol>): string {
    if eps == [] then ""
    else EndpointsBytes(eps[..|eps| - 1]) + EndpointBytes(eps[|eps| - 1].endpoint)
  }

  function Encode(lbs: seq<Loadbalancer>): string {
    if lbs == [] then ""
    else
      var lb := lbs[|lbs| - 1];
      Encode(lbs[..|lbs| - 1]) + lb.name + EndpointsBytes(lb.endpoints)
  }

  /** The port is written with its low byte first, behind the octets in the order they are printed. */
  lemma EndpointLayout(e: Endpoint)
    ensures var bytes, n := EndpointBytes(e), |IPBytes(e.ip)|;
            && |bytes| == n + 2
            && e.port == bytes[n] as int + 0x100 * bytes[n + 1] as int && bytes[n] < 0x100 as char
            && if e.ip.Nil? then n == 0
               else n == 4 && bytes[..4] == [e.ip.a as char, e.ip.b as char, e.ip.c as char, e.ip.d as char]
  {
  }

  lemma EndpointsSnoc(eps: seq<EndpointProtocol>, e: EndpointProtocol)
    ensures EndpointsBytes(eps + [e]) == EndpointsBytes(eps) + EndpointBytes(e.endpoint)
  {
    assert (eps + [e])[..|eps|] == eps;
  }

  /** The endpoints follow each other in order. */
  lemma {:induction false} EndpointsAppend(a: seq<EndpointProtocol>, b: seq<EndpointProtocol>)
    ensures EndpointsBytes(a + b) == EndpointsBytes(a) + EndpointsBytes(b)
    ensures |b| == 1 ==> EndpointsBytes(b) == EndpointBytes(b[0].endpoint)
  {
    if b == [] {
      assert a + b == a;
    } else {
      var init, last := b[..|b| - 1], b[|b| - 1];
      assert b == init + [last] && a + b == (a + init) + [last];
      EndpointsAppend(a, init);
      EndpointsSnoc(a + init, last);
      EndpointsSnoc(init, last);
      Associative(EndpointsBytes(a), EndpointsBytes(init), EndpointBytes(last.endpoint));
    }
  }

  lemma EncodeSnoc(lbs: seq<Loadbalancer>, lb: Loadbalancer)
    ensures Encode(lbs + [lb]) == Encode(lbs) + (lb.name + EndpointsBytes(lb.endpoints))
  {
    assert (lbs + [lb])[..|lbs|] == lbs;
    Associative(Encode(lbs), lb.name, EndpointsBytes(lb.endpoints));
  }

  /** The streams of the loadbalancers follow each other in list order. */
  lemma {:induction false} EncodeAppend(a: seq<Loadbalancer>, b: seq<Loadbalancer>)
    ensures Encode(a + b) == Encode(a) + Encode(b)
  {
    if b == [] {
      assert a + b == a;
    } else {
      var init, last := b[..|b| - 1], b[|b| - 1];
      assert b == init + [last] && a + b == (a + init) + [last];
      EncodeAppend(a, init);
      EncodeSnoc(a + init, last);
      EncodeSnoc(init, last);
      Associative(Encode(a), Encode(init), last.name + EndpointsBytes(last.endpoints));
    }
  }

  /** And each is the loadbalancer's name followed by its endpoints. */
  lemma EncodeOne(lb: Loadbalancer)
    ensures var bytes := Encode([lb]);
            bytes[..|lb.name|] == lb.name && bytes[|lb.name|..] == EndpointsBytes(lb.endpoints)
  {
    EncodeSnoc([], lb);
    assert [] + [lb] == [lb];
  }

  function NewList(digest: Digest, lbs: seq<Loadbalancer>): LoadbalancerList {
    LoadbalancerList(lbs, digest(Encode(lbs)))
  }

  class Hasher {
    var written: string
    const digest: Digest

    constructor (digest: Digest)
      ensures written == "" && this.digest == digest
    {
      written := "";
      this.digest := digest;
    }

    method Write(bytes: string)
      modifies this
      ensures written == old(written) + bytes
    {
      written := written + bytes;
    }

    function Sum64(): uint64
      reads this
    {
      digest(written)
    }
  }

  method NewLoadbalancerList(digest: Digest, lbs: seq<Loadbalancer>) returns (list: LoadbalancerList)
    ensures list == NewList(digest, lbs)
  {
    var hash := CalculateHash(digest, lbs);
    list := LoadbalancerList(lbs, hash);
  }

  lemma EndpointsBytesNext(sofar: string, eps: seq<EndpointProtocol>, j: nat)
    requires j < |eps|
    ensures sofar + EndpointsBytes(eps[..j + 1])
         == sofar + EndpointsBytes(eps[..j]) + IPBytes(eps[j].endpoint.ip) + PortBytes(eps[j].endpoint.port)
  {
    assert eps[..j + 1][..j] == eps[..j];
  }

  lemma EncodeNext(lbs: seq<Loadbalancer>, i: nat)
    requires i < |lbs|
    ensures Encode(lbs[..i + 1]) == Encode(lbs[..i]) + lbs[i].name + EndpointsBytes(lbs[i].endpoints)
  {
    assert lbs[..i + 1][..i] == lbs[..i];
  }

  method CalculateHash(digest: Digest, lbs: seq<Loadbalancer>) returns (hash: uint64)
    ensures hash == digest(Encode(lbs))
  {
    var h := new Hasher(digest);
    for i := 0 to |lbs|
      invariant h.written == Encode(lbs[..i])
    {
      var lb := lbs[i];
      h.Write(lb.name);
      for j := 0 to |lb.endpoints|
        invariant h.written == Encode(lbs[..i]) + lb.name + EndpointsBytes(lb.endpoints[..j])
      {
        EndpointsBytesNext(Encode(lbs[..i]) + lb.name, lb.endpoints, j);
        h.Write(IPBytes(lb.endpoints[j].endpoint.ip));
        h.Write(PortBytes(lb.endpoints[j].endpoint.port));
      }
      EncodeNext(lbs, i);
      assert lb.endpoints[..|lb.endpoints|] == lb.endpoints;
    }
    assert lbs[..|lbs|] == lbs;
    hash := h.Sum64();
  }
}
