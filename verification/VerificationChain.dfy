/** The streaming evidence chain and the verification graph root (verification.py:208-222, 404-441, 511-595). */
module VerificationChain {
  import opened Wrappers
  import opened PointerPath
  import opened Hashing

  const MAX_CHAIN_LINKS := 4096
  const MAX_GRAPH_FACTS := 4096

  /** b"agent-evals/evidence-chain/v1\0" and b"agent-evals/verification-graph/v1\0" */
  const CHAIN_DOMAIN: Bytes :=
    [97, 103, 101, 110, 116, 45, 101, 118, 97, 108, 115, 47, 101, 118, 105, 100, 101, 110, 99, 101, 45, 99, 104, 97,
        105, 110, 47, 118, 49, 0]
  const GRAPH_DOMAIN: Bytes :=
    [97, 103, 101, 110, 116, 45, 101, 118, 97, 108, 115, 47, 118, 101, 114, 105, 102, 105, 99, 97, 116, 105, 111, 110,
        45, 103, 114, 97, 112,
     104, 47, 118, 49, 0]
  const CHAIN_SCHEMA := "agent-evals/evidence-chain/v1"
  const GRAPH_SCHEMA := "agent-evals/verification-graph/v1"

  /** "0" * 64 */
  function ZeroRoot(): string { seq(64, i => '0') }

  /** _require_sha256 */
  predicate Sha256Text(s: string) {
    |s| == 64 && forall i | 0 <= i < 64 :: '0' <= s[i] <= '9' || 'a' <= s[i] <= 'f'
  }

  // ---------------------------------------------------------------- links

  function LinkMaterial(index: nat, eventDigest: string, previousRoot: string): Json {
    Object(map["schema_version" := Text(CHAIN_SCHEMA), "index" := Number(Decimal(index)), "event_digest" :=
        Text(eventDigest),
               "previous_root" := Text(previousRoot)])
  }

  /** _chain_root */
  function ChainRoot(h: Hasher, index: nat, eventDigest: string, previousRoot: string): string {
    Hex(h.sha(CHAIN_DOMAIN + h.encode(LinkMaterial(index, eventDigest, previousRoot))))
  }

  datatype Link = Link(index: nat, eventDigest: string, previousRoot: string, chainRoot: string)

  /** The field patterns and verify_chain_root. */
  predicate LinkOk(h: Hasher, l: Link) {
    && Sha256Text(l.eventDigest) && Sha256Text(l.previousRoot) && Sha256Text(l.chainRoot)
    && l.chainRoot == ChainRoot(h, l.index, l.eventDigest, l.previousRoot)
  }

  datatype EvidenceChain = EvidenceChain(links: seq<Link>, finalRoot: string)

  /** The root after some event digests. */
  function RootAfter(h: Hasher, digests: seq<string>): string {
    if digests == [] then ZeroRoot()
    else
      var n := |digests| - 1;
      ChainRoot(h, n, digests[n], RootAfter(h, digests[..n]))
  }

  /** The links over some event digests. */
  function Links(h: Hasher, digests: seq<string>): seq<Link> {
    if digests == [] then []
    else
      var n := |digests| - 1;
      Links(h, digests[..n]) + [NextLink(h, n, digests[n], RootAfter(h, digests[..n]))]
  }

  /** EvidenceChainLink.create */
  function NextLink(h: Hasher, index: nat, eventDigest: string, previousRoot: string): Link {
    Link(index, eventDigest, previousRoot, ChainRoot(h, index, eventDigest, previousRoot))
  }

  function DigestsOf(links: seq<Link>): seq<string> {
    seq(|links|, i requires 0 <= i < |links| => links[i].eventDigest)
  }

  /** The chain over some event digests. */
  function ChainOf(h: Hasher, digests: seq<string>): EvidenceChain {
    EvidenceChain(Links(h, digests), RootAfter(h, digests))
  }

  predicate AllSha256Text(digests: seq<string>) {
    forall i | 0 <= i < |digests| :: Sha256Text(digests[i])
  }

  lemma {:induction false} HexIsSha256Text(d: Bytes)
    ensures forall i | 0 <= i < |Hex(d)| :: '0' <= Hex(d)[i] <= '9' || 'a' <= Hex(d)[i] <= 'f'
  {
    if d != [] {
      HexIsSha256Text(d[1..]);
      HexDigits(d[0]);
    }
  }

  lemma HexDigits(b: Byte)
    ensures forall i | 0 <= i < 2 :: '0' <= HexByte(b)[i] <= '9' || 'a' <= HexByte(b)[i] <= 'f'
  {
    NibbleOfHex(b as int / 16);
    NibbleOfHex(b as int % 16);
  }

  lemma RootIsSha256Text(h: Hasher, digests: seq<string>)
    ensures Sha256Text(RootAfter(h, digests))
  {
    if digests != [] {
      var n := |digests| - 1;
      HexIsSha256Text(h.sha(CHAIN_DOMAIN + h.encode(LinkMaterial(n, digests[n], RootAfter(h, digests[..n])))));
    }
  }

  lemma ChainSnoc(h: Hasher, front: seq<string>, last: string)
    ensures RootAfter(h, front + [last]) == ChainRoot(h, |front|, last, RootAfter(h, front))
    ensures Links(h, front + [last]) == Links(h, front) + [NextLink(h, |front|, last, RootAfter(h, front))]
  {
    assert (front + [last])[..|front|] == front;
  }

  lemma AllSnoc(front: seq<string>, last: string)
    ensures AllSha256Text(front + [last]) <==> AllSha256Text(front) && Sha256Text(last)
  {
    if AllSha256Text(front + [last]) {
      assert (front + [last])[|front|] == last;
      assert forall k | 0 <= k < |front| :: (front + [last])[k] == front[k];
    }
  }

  lemma ChainStep(h: Hasher, digests: seq<string>, i: nat)
    requires i < |digests|
    ensures RootAfter(h, digests[..i + 1]) == ChainRoot(h, i, digests[i], RootAfter(h, digests[..i]))
    ensures Links(h, digests[..i + 1])
        == Links(h, digests[..i]) + [NextLink(h, i, digests[i], RootAfter(h, digests[..i]))]
    ensures AllSha256Text(digests[..i + 1]) <==> AllSha256Text(digests[..i]) && Sha256Text(digests[i])
  {
    assert digests[..i + 1] == digests[..i] + [digests[i]];
    ChainSnoc(h, digests[..i], digests[i]);
    AllSnoc(digests[..i], digests[i]);
  }

  lemma RefusedDigest(digests: seq<string>, i: nat)
    requires i < |digests| && !Sha256Text(digests[i])
    ensures !AllSha256Text(digests)
  {
  }

  /** from_event_digests, up to the validation of the result; None when the digests are refused. */
  method FromEventDigests(h: Hasher, digests: seq<string>) returns (chain: Option<EvidenceChain>)
    ensures chain == if 0 < |digests| <= MAX_CHAIN_LINKS && AllSha256Text(digests) then Some(ChainOf(h, digests))
        else None
  {
    if digests == [] || |digests| > MAX_CHAIN_LINKS {
      return None;
    }
    var previous := ZeroRoot();
    var links: seq<Link> := [];
    for index := 0 to |digests|
      invariant previous == RootAfter(h, digests[..index]) && links == Links(h, digests[..index])
          && AllSha256Text(digests[..index])
    {
      RootIsSha256Text(h, digests[..index]);
      ChainStep(h, digests, index);
      if !Sha256Text(digests[index]) || !Sha256Text(previous) {
        RefusedDigest(digests, index);
        return None;
      }
      var link := NextLink(h, index, digests[index], previous);
      links := links + [link];
      previous := link.chainRoot;
    }
    assert digests[..|digests|] == digests;
    chain := Some(EvidenceChain(links, previous));
  }

  lemma DigestsSnoc(links: seq<Link>, link: Link)
    ensures DigestsOf(links + [link]) == DigestsOf(links) + [link.eventDigest]
  {
  }

  lemma {:induction false} LinksLength(h: Hasher, digests: seq<string>)
    ensures |Links(h, digests)| == |digests| && DigestsOf(Links(h, digests)) == digests
  {
    if digests != [] {
      var n := |digests| - 1;
      var front := Links(h, digests[..n]);
      LinksLength(h, digests[..n]);
      DigestsSnoc(front, NextLink(h, n, digests[n], RootAfter(h, digests[..n])));
      assert digests == digests[..n] + [digests[n]];
    }
  }

  /** The checks on one link, given the root so far, say that it is the link of its digest. */
  lemma AcceptedLink(h: Hasher, digests: seq<string>, i: nat, link: Link)
    requires i < |digests| && link.eventDigest == digests[i]
    ensures LinkOk(h, link) && link.index == i && link.previousRoot == RootAfter(h, digests[..i])
       <==> link == NextLink(h, i, digests[i], RootAfter(h, digests[..i])) && Sha256Text(digests[i])
  {
    ChainStep(h, digests, i);
    RootIsSha256Text(h, digests[..i]);
    RootIsSha256Text(h, digests[..i + 1]);
  }

  lemma {:induction false} LinksPrefix(h: Hasher, digests: seq<string>, i: nat)
    requires i <= |digests|
    ensures |Links(h, digests)| == |digests| && Links(h, digests[..i]) == Links(h, digests)[..i]
  {
    LinksLength(h, digests);
    if i == |digests| {
      assert digests[..i] == digests;
    } else {
      var front, last := digests[..|digests| - 1], digests[|digests| - 1];
      assert digests == front + [last] && front[..i] == digests[..i];
      LinksPrefix(h, front, i);
      LongerPrefix(Links(h, front), NextLink(h, |front|, last, RootAfter(h, front)), i);
      ChainSnoc(h, front, last);
    }
  }

  lemma LongerPrefix(front: seq<Link>, last: Link, i: nat)
    requires i <= |front|
    ensures (front + [last])[..i] == front[..i]
  {
  }

  lemma LinkAt(h: Hasher, digests: seq<string>, i: nat)
    requires i < |digests|
    ensures |Links(h, digests)| == |digests|
        && Links(h, digests)[i] == NextLink(h, i, digests[i], RootAfter(h, digests[..i]))
  {
    LinksPrefix(h, digests, i + 1);
    LinksLength(h, digests[..i]);
    ChainStep(h, digests, i);
    assert Links(h, digests)[i] == Links(h, digests)[..i + 1][i];
  }

  /** A link that is not the one of its digest spoils the whole chain. */
  lemma RefusedLink(h: Hasher, links: seq<Link>, digests: seq<string>, i: nat)
    requires i < |links| && digests == DigestsOf(links)
    requires links[i] != NextLink(h, i, digests[i], RootAfter(h, digests[..i])) || !Sha256Text(digests[i])
    ensures links != Links(h, digests) || !AllSha256Text(digests)
  {
    LinkAt(h, digests, i);
  }

  /** The links up to i are those of their digests, and `previous` is the root so far. */
  ghost predicate Validated(h: Hasher, links: seq<Link>, i: nat, previous: string) {
    && i <= |links| && previous == RootAfter(h, DigestsOf(links)[..i])
    && links[..i] == Links(h, DigestsOf(links)[..i]) && AllSha256Text(DigestsOf(links)[..i])
  }

  /** The checks on the next link extend the validated part, or spoil the chain. */
  lemma ValidateLink(h: Hasher, links: seq<Link>, i: nat, previous: string)
    requires i < |links| && Validated(h, links, i, previous)
    ensures if LinkOk(h, links[i]) && links[i].index == i && links[i].previousRoot == previous
            then Validated(h, links, i + 1, links[i].chainRoot)
            else links != Links(h, DigestsOf(links)) || !AllSha256Text(DigestsOf(links))
  {
    var digests := DigestsOf(links);
    AcceptedLink(h, digests, i, links[i]);
    if LinkOk(h, links[i]) && links[i].index == i && links[i].previousRoot == previous {
      ChainStep(h, digests, i);
      assert links[..i + 1] == links[..i] + [links[i]];
    } else {
      RefusedLink(h, links, digests, i);
    }
  }

  /** Link by link: each has its position, a well-formed digest, the root of the link before it or 64 zeros, and the
      root of these three; the chain ends with the last of these roots. */
  predicate Linked(h: Hasher, chain: EvidenceChain) {
    && chain.links != [] && chain.finalRoot == chain.links[|chain.links| - 1].chainRoot
    && forall i | 0 <= i < |chain.links| :: LinkedAt(h, chain.links, i)
  }

  predicate LinkedAt(h: Hasher, links: seq<Link>, i: int)
    requires 0 <= i < |links|
  {
    && links[i].index == i && Sha256Text(links[i].eventDigest)
    && links[i].previousRoot == (if i == 0 then seq(64, _ => '0') else links[i - 1].chainRoot)
    && links[i].chainRoot == ChainRoot(h, i, links[i].eventDigest, links[i].previousRoot)
  }

  /** The root and the links over the first digests are those of the first links. */
  predicate MatchesUpTo(h: Hasher, links: seq<Link>, digests: seq<string>, i: nat)
    requires i <= |links| == |digests|
  {
    && RootAfter(h, digests[..i]) == (if i == 0 then ZeroRoot() else links[i - 1].chainRoot)
    && links[..i] == Links(h, digests[..i]) && AllSha256Text(digests[..i])
  }

  lemma LinkedStep(h: Hasher, links: seq<Link>, digests: seq<string>, i: nat)
    requires i < |links| == |digests| && digests[i] == links[i].eventDigest
    requires MatchesUpTo(h, links, digests, i) && LinkedAt(h, links, i)
    ensures MatchesUpTo(h, links, digests, i + 1)
  {
    LinkedIsNext(h, links, i, RootAfter(h, digests[..i]));
    ChainStep(h, digests, i);
    SnocPrefix(links, i);
  }

  lemma LinkedIsNext(h: Hasher, links: seq<Link>, i: nat, previous: string)
    requires i < |links| && LinkedAt(h, links, i)
    requires previous == if i == 0 then ZeroRoot() else links[i - 1].chainRoot
    ensures links[i] == NextLink(h, i, links[i].eventDigest, previous)
  {
    ZeroRootIsZeros();
  }

  lemma SnocPrefix(links: seq<Link>, i: nat)
    requires i < |links|
    ensures links[..i + 1] == links[..i] + [links[i]]
  {
  }

  lemma ZeroRootIsZeros()
    ensures ZeroRoot() == seq(64, _ => '0')
  {
  }

  lemma {:induction false} LinkedSoFar(h: Hasher, links: seq<Link>, digests: seq<string>, i: nat)
    requires i <= |links| && digests == DigestsOf(links) && forall k | 0 <= k < i :: LinkedAt(h, links, k)
    ensures MatchesUpTo(h, links, digests, i)
  {
    if i > 0 {
      LinkedSoFar(h, links, digests, i - 1);
      LinkedStep(h, links, digests, i - 1);
    }
  }

  lemma LinksAreLinked(h: Hasher, digests: seq<string>, i: nat)
    requires i < |digests| && AllSha256Text(digests)
    ensures |Links(h, digests)| == |digests| && LinkedAt(h, Links(h, digests), i)
  {
    LinkAt(h, digests, i);
    if i > 0 {
      LinkAt(h, digests, i - 1);
      ChainStep(h, digests, i - 1);
    } else {
      assert ZeroRoot() == seq(64, _ => '0');
    }
  }

  /** The chain over its own event digests is the one that is linked up. */
  lemma ChainMeaning(h: Hasher, chain: EvidenceChain)
    ensures Linked(h, chain) <==>
              && chain.links != [] && AllSha256Text(DigestsOf(chain.links))
              && chain == ChainOf(h, DigestsOf(chain.links))
  {
    var digests := DigestsOf(chain.links);
    assert digests[..|digests|] == digests && chain.links[..|chain.links|] == chain.links;
    if Linked(h, chain) {
      LinkedSoFar(h, chain.links, digests, |chain.links|);
    }
    if chain.links != [] && AllSha256Text(digests) && chain == ChainOf(h, digests) {
      forall i | 0 <= i < |chain.links| ensures LinkedAt(h, chain.links, i) {
        LinksAreLinked(h, digests, i);
      }
      LinkedSoFar(h, chain.links, digests, |chain.links|);
    }
  }

  /** validate_chain, with the validation of each link: accepted exactly when the chain is the one over its own
      event digests, which is to say when it is linked up. */
  method ValidateChain(h: Hasher, chain: EvidenceChain) returns (accepted: bool)
    ensures accepted <==> |chain.links| <= MAX_CHAIN_LINKS && Linked(h, chain)
    ensures accepted <==> 0 < |chain.links| <= MAX_CHAIN_LINKS && AllSha256Text(DigestsOf(chain.links))
                          && chain == ChainOf(h, DigestsOf(chain.links))
  {
    ChainMeaning(h, chain);
    if chain.links == [] || |chain.links| > MAX_CHAIN_LINKS {
      return false;
    }
    var previous := ZeroRoot();
    for index := 0 to |chain.links|
      invariant Validated(h, chain.links, index, previous)
    {
      var link := chain.links[index];
      ValidateLink(h, chain.links, index, previous);
      if !LinkOk(h, link) || link.index != index || link.previousRoot != previous {
        return false;
      }
      previous := link.chainRoot;
    }
    WholeChain(h, chain.links, previous);
    accepted := chain.finalRoot == previous;
  }

  lemma WholeChain(h: Hasher, links: seq<Link>, previous: string)
    requires Validated(h, links, |links|, previous)
    ensures links == Links(h, DigestsOf(links)) && AllSha256Text(DigestsOf(links))
    ensures previous == RootAfter(h, DigestsOf(links))
  {
    assert DigestsOf(links)[..|links|] == DigestsOf(links) && links[..|links|] == links;
  }

  /** from_event_digests always builds a chain that validates, and that carries the digests. */
  method BuildAndValidate(h: Hasher, digests: seq<string>) returns (chain: Option<EvidenceChain>, accepted: bool)
    ensures chain.Some? ==> accepted && DigestsOf(chain.value.links) == digests
  {
    chain := FromEventDigests(h, digests);
    accepted := false;
    if chain.Some? {
      LinksLength(h, digests);
      accepted := ValidateChain(h, chain.value);
    }
  }

  lemma LinkFields(index: nat, eventDigest: string, previousRoot: string)
    ensures var m := LinkMaterial(index, eventDigest, previousRoot).members;
            && "index" in m && m["index"] == Number(Decimal(index)) && "event_digest" in m
               && m["event_digest"] == Text(eventDigest)
            && "previous_root" in m && m["previous_root"] == Text(previousRoot)
  {
  }

  lemma SameLink(i: nat, d: string, p: string, j: nat, e: string, q: string)
    requires LinkMaterial(i, d, p) == LinkMaterial(j, e, q)
    ensures i == j && d == e && p == q
  {
    LinkFields(i, d, p);
    LinkFields(j, e, q);
    DecimalInjective(i, j);
  }

  /** Equal chain roots come from equal links, or exhibit a collision. */
  lemma ChainRootBinds(h: Hasher, m: nat, d: string, p: string, n: nat, e: string, q: string)
      returns (a: Bytes, b: Bytes)
    requires Faithful(h) && ChainRoot(h, m, d, p) == ChainRoot(h, n, e, q)
    ensures Collision(h, a, b) || (m == n && d == e && p == q)
  {
    var u, v := LinkMaterial(m, d, p), LinkMaterial(n, e, q);
    a, b := CHAIN_DOMAIN + h.encode(u), CHAIN_DOMAIN + h.encode(v);
    HexInjective(h.sha(a), h.sha(b));
    if a == b {
      SplitEqual(CHAIN_DOMAIN, h.encode(u), CHAIN_DOMAIN, h.encode(v));
      SameLink(m, d, p, n, e, q);
    }
  }

  /** The final root binds the list of digests: equal final roots mean equal lists, or a hash collision. */
  lemma {:induction false} FinalRootBinds(h: Hasher, ds: seq<string>, es: seq<string>) returns (a: Bytes, b: Bytes)
    requires Faithful(h) && ds != [] && es != [] && RootAfter(h, ds) == RootAfter(h, es)
    ensures Collision(h, a, b) || ds == es
    decreases |ds|
  {
    var front, last := ds[..|ds| - 1], ds[|ds| - 1];
    var start, end := es[..|es| - 1], es[|es| - 1];
    assert ds == front + [last] && es == start + [end];
    a, b := LastLinkBinds(h, front, last, start, end);
    if !Collision(h, a, b) && front != [] {
      a, b := FinalRootBinds(h, front, start);
    }
  }

  lemma LastLinkBinds(h: Hasher, front: seq<string>, last: string, start: seq<string>, end: string)
      returns (a: Bytes, b: Bytes)
    requires Faithful(h) && RootAfter(h, front + [last]) == RootAfter(h, start + [end])
    ensures Collision(h, a, b) || (|front| == |start| && last == end && RootAfter(h, front) == RootAfter(h, start))
  {
    ChainSnoc(h, front, last);
    ChainSnoc(h, start, end);
    a, b := ChainRootBinds(h, |front|, last, RootAfter(h, front), |start|, end, RootAfter(h, start));
  }

  // ---------------------------------------------------------------- the verification graph

  /** A verified fact, as far as the graph reads it. */
  datatype Fact = Fact(root: string, dependencies: seq<string>)

  function Roots(facts: seq<Fact>): seq<string> {
    seq(|facts|, i requires 0 <= i < |facts| => facts[i].root)
  }

  /** Fact roots are unique and every dependency is the root of an earlier fact. */
  predicate TopologicallyPrior(facts: seq<Fact>) {
    forall i | 0 <= i < |facts| ::
      && facts[i].root !in Roots(facts[..i])
      && forall k | 0 <= k < |facts[i].dependencies| :: facts[i].dependencies[k] in Roots(facts[..i])
  }

  function GraphRoot(h: Hasher, facts: seq<Fact>): string {
    Hex(h.sha(GRAPH_DOMAIN + h.encode(GraphMaterial(Roots(facts)))))
  }

  function GraphMaterial(roots: seq<string>): Json {
    Object(map["schema_version" := Text(GRAPH_SCHEMA), "fact_roots" :=
        Array(seq(|roots|, i requires 0 <= i < |roots| => Text(roots[i])))])
  }

  /** _verification_graph_root; None when the facts are refused. */
  method VerificationGraphRoot(h: Hasher, facts: seq<Fact>) returns (root: Option<string>)
    ensures root == if 0 < |facts| <= MAX_GRAPH_FACTS && TopologicallyPrior(facts) then Some(GraphRoot(h, facts))
        else None
  {
    if facts == [] || |facts| > MAX_GRAPH_FACTS {
      return None;
    }
    var seen: set<string> := {};
    var roots: seq<string> := [];
    for i := 0 to |facts|
      invariant roots == Roots(facts[..i]) && (forall x :: x in seen <==> x in roots)
      invariant forall j | 0 <= j < i ::
                  && facts[j].root !in Roots(facts[..j])
                  && forall k | 0 <= k < |facts[j].dependencies| :: facts[j].dependencies[k] in Roots(facts[..j])
    {
      var fact := facts[i];
      if fact.root in seen || exists k | 0 <= k < |fact.dependencies| :: fact.dependencies[k] !in seen {
        return None;
      }
      seen := seen + {fact.root};
      roots := roots + [fact.root];
      assert Roots(facts[..i + 1]) == Roots(facts[..i]) + [fact.root];
    }
    assert facts[..|facts|] == facts;
    root := Some(Hex(h.sha(GRAPH_DOMAIN + h.encode(GraphMaterial(roots)))));
  }

  lemma SameRoots(rs: seq<string>, ss: seq<string>)
    requires GraphMaterial(rs) == GraphMaterial(ss)
    ensures rs == ss
  {
    var m, n := GraphMaterial(rs).members, GraphMaterial(ss).members;
    assert "fact_roots" in m && "fact_roots" in n && m["fact_roots"] == n["fact_roots"];
    var x, y := m["fact_roots"].items, n["fact_roots"].items;
    assert |rs| == |x| == |y| == |ss|;
    assert forall i | 0 <= i < |rs| :: x[i] == Text(rs[i]) && y[i] == Text(ss[i]);
  }

  /** The graph root binds the fact roots in their order, up to a hash collision. */
  lemma GraphRootBinds(h: Hasher, fs: seq<Fact>, gs: seq<Fact>) returns (a: Bytes, b: Bytes)
    requires Faithful(h) && GraphRoot(h, fs) == GraphRoot(h, gs)
    ensures Collision(h, a, b) || Roots(fs) == Roots(gs)
  {
    var u, v := GraphMaterial(Roots(fs)), GraphMaterial(Roots(gs));
    a, b := GRAPH_DOMAIN + h.encode(u), GRAPH_DOMAIN + h.encode(v);
    HexInjective(h.sha(a), h.sha(b));
    if a == b {
      SplitEqual(GRAPH_DOMAIN, h.encode(u), GRAPH_DOMAIN, h.encode(v));
      SameRoots(Roots(fs), Roots(gs));
    }
  }
}
