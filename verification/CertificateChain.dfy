/** `buildCertificateChain` in backend/scan/tls.js: a walk along issuer references that may form a cycle. */
module CertificateChain {

  /** A peer certificate object: its own fields, and a reference to its issuer's object. */
  class Certificate<F> {
    const fields: F
    var issuer: Certificate?<F>

    constructor (fields: F, issuer: Certificate?<F>)
      ensures this.fields == fields && this.issuer == issuer
    {
      this.fields, this.issuer := fields, issuer;
    }
  }

  /** The graph the handshake handed over: finite, and closed under issuers. */
  ghost predicate Closed<F>(graph: set<Certificate<F>>)
    reads graph
  {
    forall c | c in graph && c.issuer != null :: c.issuer in graph
  }

  /** Consecutive certificates from the leaf, each the issuer of the one before. */
  ghost predicate IssuerPath<F>(path: seq<Certificate<F>>, leaf: Certificate<F>)
    reads path
  {
    && path != [] && path[0] == leaf
    && forall i | 0 <= i < |path| - 1 :: path[i].issuer == path[i + 1]
  }

  ghost predicate NoRepeat<F>(path: seq<Certificate<F>>) {
    forall i, j | 0 <= i < j < |path| :: path[i] != path[j]
  }

  /** The path cannot go on without repeating a certificate. */
  ghost predicate Exhausted<F>(path: seq<Certificate<F>>)
    requires path != []
    reads path
  {
    var last := path[|path| - 1];
    last.issuer == null || last.issuer in path
  }

  function FieldsOf<F>(path: seq<Certificate<F>>): seq<F> {
    seq(|path|, i requires 0 <= i < |path| => path[i].fields)
  }

  /**
   Terminates on every finite graph, cyclic or not. The chain lists the fields along a repetition-free
   issuer path from the leaf that cannot be extended; with no certificate it is empty.
   */
  method BuildCertificateChain<F>(peer: Certificate?<F>, ghost graph: set<Certificate<F>>)
      returns (chain: seq<F>, ghost path: seq<Certificate<F>>)
    requires Closed(graph) && (peer != null ==> peer in graph)
    ensures peer == null ==> chain == []
    ensures peer != null ==> IssuerPath(path, peer) && NoRepeat(path) && Exhausted(path)
    ensures peer != null ==> |chain| == |path| && forall i | 0 <= i < |path| :: chain[i] == path[i].fields
  {
    chain, path := [], [];
    if peer == null {
      return;
    }
    var seen: set<Certificate<F>> := {};
    var current: Certificate?<F> := peer;
    while current != null && current !in seen
      invariant chain == FieldsOf(path) && NoRepeat(path)
      invariant path == [] ==> current == peer
      invariant path != [] ==> IssuerPath(path, peer)
      invariant path != [] ==> current == path[|path| - 1].issuer
                               || (current == null && path[|path| - 1].issuer == path[|path| - 1])
      invariant forall c :: c in seen <==> c in path
      invariant seen <= graph && (current != null ==> current in graph)
      decreases graph - seen
    {
      seen := seen + {current};
      chain := chain + [current.fields];
      path := path + [current];
      current := if current.issuer != null && current.issuer != current then current.issuer else null;
    }
  }

  /** Any issuer path from the leaf without repetition is a beginning of the exhausted one. */
  lemma {:induction false} PathIsLongest<F>(path: seq<Certificate<F>>, other: seq<Certificate<F>>, leaf: Certificate<F>)
    requires IssuerPath(path, leaf) && NoRepeat(path) && Exhausted(path)
    requires IssuerPath(other, leaf) && NoRepeat(other)
    ensures other <= path
    decreases |other|
  {
    if |other| == 1 {
      return;
    }
    var n := |other| - 1;
    var init := other[..n];
    PathIsLongest(path, init, leaf);
    assert other[n - 1].issuer == other[n];
    if n < |path| {
      assert path[n - 1].issuer == path[n];
    }
  }

  /** So the walk is determined: there is only one exhausted repetition-free path. */
  lemma ChainIsUnique<F>(p: seq<Certificate<F>>, q: seq<Certificate<F>>, leaf: Certificate<F>)
    requires IssuerPath(p, leaf) && NoRepeat(p) && Exhausted(p)
    requires IssuerPath(q, leaf) && NoRepeat(q) && Exhausted(q)
    ensures p == q
  {
    PathIsLongest(p, q, leaf);
    PathIsLongest(q, p, leaf);
  }
}
