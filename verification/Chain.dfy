// internal/kmp/chain.go: finding the certificates of a response and building the chain
// of the issued one.
module Chain {
  import opened Basics
  import opened Text
  import opened Certificates

  // ---------- the issuer relation ----------

  // The parent's subject is the child's issuer, and the signature verifies.
  predicate Issues(pki: Pki, parent: Cert, child: Cert) {
    parent.subject == child.issuer && pki.signedBy(child, parent)
  }

  predicate IsSelfSigned(pki: Pki, c: Cert) {
    Issues(pki, c, c)
  }

  // The position of the first candidate that issued the child, or past the end.
  function FirstIssuer(pki: Pki, candidates: seq<Cert>, child: Cert): (i: nat)
    ensures i <= |candidates|
    ensures i < |candidates| ==> Issues(pki, candidates[i], child)
    ensures forall j :: 0 <= j < i ==> !Issues(pki, candidates[j], child)
  {
    if candidates == [] then 0
    else if Issues(pki, candidates[0], child) then 0
    else 1 + FirstIssuer(pki, candidates[1..], child)
  }

  function Without(certs: seq<Cert>, i: nat): seq<Cert>
    requires i < |certs|
  {
    certs[..i] + certs[i + 1..]
  }

  // What BuildBundle appends above the current certificate.
  function Climb(pki: Pki, remaining: seq<Cert>, current: Cert): seq<Cert>
    decreases |remaining|
  {
    var i := FirstIssuer(pki, remaining, current);
    if i == |remaining| then []
    else if IsSelfSigned(pki, remaining[i]) then [remaining[i]]
    else [remaining[i]] + Climb(pki, Without(remaining, i), remaining[i])
  }

  function Others(certs: seq<Cert>, leaf: Cert): seq<Cert> {
    if certs == [] then []
    else (if certs[0].raw != leaf.raw then [certs[0]] else []) + Others(certs[1..], leaf)
  }

  function ChainOf(pki: Pki, certs: seq<Cert>, leaf: Cert): (chain: seq<Cert>)
    ensures chain != [] && chain[0] == leaf
  {
    [leaf] + Climb(pki, Others(certs, leaf), leaf)
  }

  // ---------- what a chain is ----------

  ghost predicate Distinct(certs: seq<Cert>) {
    forall i, j :: 0 <= i < j < |certs| ==> certs[i] != certs[j]
  }

  // No two different certificates share their bytes.
  ghost predicate RawIdentifies(certs: seq<Cert>) {
    forall c, d :: c in certs && d in certs && c.raw == d.raw ==> c == d
  }

  // Each certificate is issued by the next, starting above the given one, and nothing
  // follows a self-signed issuer.
  ghost predicate Linked(pki: Pki, from: Cert, above: seq<Cert>)
    decreases |above|
  {
    above == [] || (
      && Issues(pki, above[0], from)
      && (|above| > 1 ==> !IsSelfSigned(pki, above[0]))
      && Linked(pki, above[0], above[1..]))
  }

  // Linked certificates of a pool, none twice.
  ghost predicate Ascends(pki: Pki, pool: seq<Cert>, from: Cert, above: seq<Cert>) {
    && Distinct(above)
    && (forall c :: c in above ==> c in pool)
    && Linked(pki, from, above)
  }

  // A chain of the leaf built from the given certificates.
  ghost predicate IsChain(pki: Pki, certs: seq<Cert>, leaf: Cert, chain: seq<Cert>) {
    && chain != [] && chain[0] == leaf
    && leaf !in chain[1..]
    && Ascends(pki, certs, leaf, chain[1..])
  }

  lemma {:induction false} OthersAreTheRest(certs: seq<Cert>, leaf: Cert)
    requires RawIdentifies(certs) && leaf in certs
    ensures forall c :: c in Others(certs, leaf) <==> c in certs && c != leaf
  {
    OthersByRaw(certs, leaf);
  }

  lemma {:induction false} OthersByRaw(certs: seq<Cert>, leaf: Cert)
    ensures forall c :: c in Others(certs, leaf) <==> c in certs && c.raw != leaf.raw
  {
    if certs != [] {
      OthersByRaw(certs[1..], leaf);
      assert certs == [certs[0]] + certs[1..];
    }
  }

  lemma {:induction false} OthersStayDistinct(certs: seq<Cert>, leaf: Cert)
    requires Distinct(certs)
    ensures Distinct(Others(certs, leaf))
  {
    if certs != [] {
      assert Distinct(certs[1..]);
      OthersStayDistinct(certs[1..], leaf);
      OthersByRaw(certs[1..], leaf);
      assert certs[0] !in certs[1..];
    }
  }

  lemma WithoutRemoves(certs: seq<Cert>, i: nat)
    requires Distinct(certs) && i < |certs|
    ensures Distinct(Without(certs, i))
    ensures forall c :: c in Without(certs, i) <==> c in certs && c != certs[i]
  {
    var rest := Without(certs, i);
    forall c ensures c in rest <==> c in certs && c != certs[i] {
      if c in certs && c != certs[i] {
        var k :| 0 <= k < |certs| && certs[k] == c;
        assert rest[if k < i then k else k - 1] == c;
      }
    }
  }

  // ---------- soundness ----------

  lemma {:induction false} ClimbAscends(pki: Pki, remaining: seq<Cert>, current: Cert)
    requires Distinct(remaining)
    ensures Ascends(pki, remaining, current, Climb(pki, remaining, current))
    decreases |remaining|
  {
    var i := FirstIssuer(pki, remaining, current);
    if i < |remaining| && !IsSelfSigned(pki, remaining[i]) {
      WithoutRemoves(remaining, i);
      ClimbAscends(pki, Without(remaining, i), remaining[i]);
      var rest := Climb(pki, Without(remaining, i), remaining[i]);
      assert Climb(pki, remaining, current)[1..] == rest;
      assert remaining[i] !in rest;
    }
  }

  // Every chain built is one: leaf first, each certificate issued by the next, all of
  // them given, none twice, and a self-signed one only first or last.
  lemma ChainIsSound(pki: Pki, certs: seq<Cert>, leaf: Cert)
    requires Distinct(certs) && RawIdentifies(certs) && leaf in certs
    ensures IsChain(pki, certs, leaf, ChainOf(pki, certs, leaf))
  {
    OthersAreTheRest(certs, leaf);
    OthersStayDistinct(certs, leaf);
    var above := Climb(pki, Others(certs, leaf), leaf);
    ClimbAscends(pki, Others(certs, leaf), leaf);
    assert ChainOf(pki, certs, leaf)[1..] == above;
  }

  // ---------- completeness ----------

  // Each certificate has at most one issuer among the others.
  ghost predicate OneIssuerEach(pki: Pki, certs: seq<Cert>) {
    forall c, u, v ::
      c in certs && u in certs && v in certs && u != c && v != c && Issues(pki, u, c) && Issues(pki, v, c) ==> u == v
  }

  lemma {:induction false} ClimbIsMaximal(pki: Pki, certs: seq<Cert>, remaining: seq<Cert>, current: Cert,
      above: seq<Cert>)
    requires OneIssuerEach(pki, certs) && Distinct(remaining)
    requires current in certs && current !in remaining && forall c :: c in remaining ==> c in certs
    requires Ascends(pki, remaining, current, above)
    ensures above <= Climb(pki, remaining, current)
    decreases |remaining|
  {
    if above != [] {
      var i := FirstIssuer(pki, remaining, current);
      assert above[0] in above;
      assert i < |remaining| && remaining[i] in remaining;
      assert remaining[i] == above[0];
      if !IsSelfSigned(pki, above[0]) {
        WithoutRemoves(remaining, i);
        assert above == [above[0]] + above[1..];
        ClimbIsMaximal(pki, certs, Without(remaining, i), above[0], above[1..]);
      } else {
        assert |above| == 1;
      }
    }
  }

  lemma {:induction false} AscendsPrefix(pki: Pki, pool: seq<Cert>, from: Cert, above: seq<Cert>, n: nat)
    requires Ascends(pki, pool, from, above) && n <= |above|
    ensures Ascends(pki, pool, from, above[..n])
    decreases |above|
  {
    if n > 0 {
      AscendsPrefix(pki, pool, above[0], above[1..], n - 1);
      assert above[..n][1..] == above[1..][..n - 1];
    }
  }

  // When no certificate has two issuers to choose from, the chains of the leaf are
  // exactly the prefixes of the one that is built: it is the unique longest.
  lemma ChainIsComplete(pki: Pki, certs: seq<Cert>, leaf: Cert, chain: seq<Cert>)
    requires Distinct(certs) && RawIdentifies(certs) && leaf in certs
    requires OneIssuerEach(pki, certs)
    ensures IsChain(pki, certs, leaf, chain) <==> chain != [] && chain <= ChainOf(pki, certs, leaf)
  {
    var best := ChainOf(pki, certs, leaf);
    ChainIsSound(pki, certs, leaf);
    if IsChain(pki, certs, leaf, chain) {
      OthersAreTheRest(certs, leaf);
      OthersStayDistinct(certs, leaf);
      ClimbIsMaximal(pki, certs, Others(certs, leaf), leaf, chain[1..]);
      assert chain == [leaf] + chain[1..];
    }
    if chain != [] && chain <= best {
      AscendsPrefix(pki, certs, leaf, best[1..], |chain| - 1);
      assert chain[1..] == best[1..][..|chain| - 1];
    }
  }

  // ---------- what is built over all orders ----------

  // A chain nothing can be added to: it ends in a self-signed issuer, or no certificate
  // outside it issued its last one.
  ghost predicate IsMaximal(pki: Pki, certs: seq<Cert>, leaf: Cert, chain: seq<Cert>) {
    IsChain(pki, certs, leaf, chain) && (Concluded(pki, chain) || NoFurtherIssuer(pki, certs, chain))
  }

  predicate Concluded(pki: Pki, chain: seq<Cert>) {
    |chain| > 1 && IsSelfSigned(pki, chain[|chain| - 1])
  }

  ghost predicate NoFurtherIssuer(pki: Pki, certs: seq<Cert>, chain: seq<Cert>)
    requires chain != []
  {
    forall c :: c in certs && c !in chain ==> !Issues(pki, c, chain[|chain| - 1])
  }

  lemma {:induction false} ClimbIsExhaustive(pki: Pki, remaining: seq<Cert>, current: Cert)
    requires Distinct(remaining)
    ensures var above := Climb(pki, remaining, current);
      var chain := [current] + above;
      Concluded(pki, chain) || forall c :: c in remaining && c !in above ==> !Issues(pki, c, chain[|chain| - 1])
    decreases |remaining|
  {
    var i := FirstIssuer(pki, remaining, current);
    if i < |remaining| && !IsSelfSigned(pki, remaining[i]) {
      var rest := Without(remaining, i);
      WithoutRemoves(remaining, i);
      ClimbIsExhaustive(pki, rest, remaining[i]);
      var above, later := Climb(pki, remaining, current), Climb(pki, rest, remaining[i]);
      assert above == [remaining[i]] + later;
      assert ([current] + above)[|above|] == ([remaining[i]] + later)[|later|];
    }
  }

  lemma ChainIsMaximal(pki: Pki, certs: seq<Cert>, leaf: Cert)
    requires Distinct(certs) && RawIdentifies(certs) && leaf in certs
    ensures IsMaximal(pki, certs, leaf, ChainOf(pki, certs, leaf))
  {
    ChainIsSound(pki, certs, leaf);
    OthersAreTheRest(certs, leaf);
    OthersStayDistinct(certs, leaf);
    ClimbIsExhaustive(pki, Others(certs, leaf), leaf);
  }

  // A chain whose certificates come first is followed to its end, and on from there.
  lemma {:induction false} ClimbFollows(pki: Pki, above: seq<Cert>, rest: seq<Cert>, current: Cert)
    requires Linked(pki, current, above)
    ensures var last := ([current] + above)[|above|];
      Climb(pki, above + rest, current) ==
        above + (if above != [] && IsSelfSigned(pki, last) then [] else Climb(pki, rest, last))
    decreases |above|
  {
    if above == [] {
      assert above + rest == rest;
    } else {
      var pool, next := above + rest, above[1..];
      var last := ([current] + above)[|above|];
      assert FirstIssuer(pki, pool, current) == 0 && Without(pool, 0) == next + rest;
      assert above == [above[0]] + next;
      if IsSelfSigned(pki, above[0]) {
        assert next == [];
      } else {
        ClimbFollows(pki, next, rest, above[0]);
        assert ([above[0]] + next)[|next|] == last;
        Associate([above[0]], next, if next != [] && IsSelfSigned(pki, last) then [] else Climb(pki, rest, last));
      }
    }
  }

  // The same certificates in another order.
  ghost predicate Rearranges(order: seq<Cert>, certs: seq<Cert>) {
    multiset(order) == multiset(certs)
  }

  lemma {:induction false} DistinctCounts(certs: seq<Cert>)
    requires Distinct(certs)
    ensures forall c :: multiset(certs)[c] == if c in certs then 1 else 0
  {
    if certs != [] {
      var rest := certs[1..];
      assert certs == [certs[0]] + rest;
      DistinctCounts(rest);
      assert certs[0] !in rest;
    }
  }

  lemma RearrangedStaysDistinct(order: seq<Cert>, certs: seq<Cert>)
    requires Rearranges(order, certs) && Distinct(certs)
    ensures Distinct(order) && forall c :: c in order <==> c in certs
  {
    SameMembers(order, certs);
    DistinctCounts(certs);
    forall i, j | 0 <= i < j < |order| ensures order[i] != order[j] {
      var x := order[i];
      assert order == order[..j] + order[j..];
      assert x == order[..j][i] && order[j] == order[j..][0];
      assert multiset(order)[x] == multiset(order[..j])[x] + multiset(order[j..])[x];
      assert x in multiset(order[..j]) && order[j] in multiset(order[j..]);
    }
  }

  lemma DistinctRearranges(order: seq<Cert>, certs: seq<Cert>)
    requires Distinct(order) && Distinct(certs) && forall c :: c in order <==> c in certs
    ensures Rearranges(order, certs)
  {
    DistinctCounts(order);
    DistinctCounts(certs);
  }

  // The certificates not among the given ones.
  function Remaining(certs: seq<Cert>, taken: seq<Cert>): (rest: seq<Cert>)
    ensures forall c :: c in rest <==> c in certs && c !in taken
  {
    if certs == [] then []
    else
      assert certs == [certs[0]] + certs[1..];
      (if certs[0] !in taken then [certs[0]] else []) + Remaining(certs[1..], taken)
  }

  lemma {:induction false} RemainingStayDistinct(certs: seq<Cert>, taken: seq<Cert>)
    requires Distinct(certs)
    ensures Distinct(Remaining(certs, taken))
  {
    if certs != [] {
      assert certs[0] !in certs[1..];
      RemainingStayDistinct(certs[1..], taken);
    }
  }

  // The given chain first, then everything else.
  function ChainFirst(certs: seq<Cert>, chain: seq<Cert>): seq<Cert> {
    chain + Remaining(certs, chain)
  }

  lemma ChainFirstRearranges(pki: Pki, certs: seq<Cert>, leaf: Cert, chain: seq<Cert>)
    requires Distinct(certs) && leaf in certs && IsChain(pki, certs, leaf, chain)
    ensures Rearranges(ChainFirst(certs, chain), certs)
  {
    var order := ChainFirst(certs, chain);
    RemainingStayDistinct(certs, chain);
    assert chain == [leaf] + chain[1..];
    forall i, j | 0 <= i < j < |order| ensures order[i] != order[j] {
      if i < |chain| {
        assert chain[i] in chain;
        assert i > 0 ==> chain[i] == chain[1..][i - 1];
        if j < |chain| {
          assert chain[j] == chain[1..][j - 1] && chain[j] in chain[1..];
        } else {
          assert order[j] in Remaining(certs, chain);
        }
      }
    }
    DistinctRearranges(order, certs);
  }

  lemma OthersOfLeafFirst(leaf: Cert, rest: seq<Cert>)
    ensures Others([leaf] + rest, leaf) == Others(rest, leaf)
  {
    assert ([leaf] + rest)[1..] == rest;
  }

  lemma OthersAfterLeaf(certs: seq<Cert>, leaf: Cert, chain: seq<Cert>)
    requires RawIdentifies(certs) && chain != [] && chain[0] == leaf && leaf in certs && leaf !in chain[1..]
    requires forall c :: c in chain[1..] ==> c in certs
    ensures Others(ChainFirst(certs, chain), leaf) == chain[1..] + Remaining(certs, chain)
  {
    var others := chain[1..] + Remaining(certs, chain);
    hide Remaining, Others;
    assert leaf in chain;
    forall c | c in others ensures c.raw != leaf.raw {
      assert c in chain[1..] || c in Remaining(certs, chain);
    }
    OthersKeepsAll(others, leaf);
    assert chain == [leaf] + chain[1..];
    assert ChainFirst(certs, chain) == [leaf] + others;
    OthersOfLeafFirst(leaf, others);
  }

  // Any chain the response holds is built, and then continued, when it comes first.
  lemma ChainFirstIsFollowed(pki: Pki, certs: seq<Cert>, leaf: Cert, chain: seq<Cert>)
    requires Distinct(certs) && RawIdentifies(certs) && leaf in certs && IsChain(pki, certs, leaf, chain)
    ensures var rest := Remaining(certs, chain);
      ChainOf(pki, ChainFirst(certs, chain), leaf) ==
        chain + (if Concluded(pki, chain) then [] else Climb(pki, rest, chain[|chain| - 1]))
  {
    hide Climb, Others, Linked, Distinct, RawIdentifies, Remaining, Issues;
    var above, rest := chain[1..], Remaining(certs, chain);
    assert chain == [leaf] + above;
    OthersAfterLeaf(certs, leaf, chain);
    ClimbFollows(pki, above, rest, leaf);
    var later := if Concluded(pki, chain) then [] else Climb(pki, rest, chain[|chain| - 1]);
    assert [leaf] + (above + later) == chain + later;
  }

  lemma MaximalIsBuilt(pki: Pki, certs: seq<Cert>, leaf: Cert, chain: seq<Cert>)
    requires Distinct(certs) && RawIdentifies(certs) && leaf in certs && IsMaximal(pki, certs, leaf, chain)
    ensures Rearranges(ChainFirst(certs, chain), certs)
    ensures ChainOf(pki, ChainFirst(certs, chain), leaf) == chain
  {
    ChainFirstRearranges(pki, certs, leaf, chain);
    ChainFirstIsFollowed(pki, certs, leaf, chain);
    if !Concluded(pki, chain) {
      var rest := Remaining(certs, chain);
      forall i | 0 <= i < |rest| ensures !Issues(pki, rest[i], chain[|chain| - 1]) {
        assert rest[i] in rest;
      }
      ClimbStops(pki, rest, chain[|chain| - 1]);
    }
  }

  lemma MaximalInAnyOrder(pki: Pki, certs: seq<Cert>, order: seq<Cert>, leaf: Cert)
    requires Distinct(certs) && RawIdentifies(certs) && leaf in certs && Rearranges(order, certs)
    ensures IsMaximal(pki, certs, leaf, ChainOf(pki, order, leaf))
  {
    RearrangedStaysDistinct(order, certs);
    ChainIsMaximal(pki, order, leaf);
  }

  // Some order of the certificates makes BuildBundle build the chain.
  ghost predicate BuiltInSomeOrder(pki: Pki, certs: seq<Cert>, leaf: Cert, chain: seq<Cert>) {
    exists order :: Rearranges(order, certs) && ChainOf(pki, order, leaf) == chain
  }

  // Over all orders of a response, the chains built are exactly the maximal ones.
  lemma BuiltChainsAreTheMaximalOnes(pki: Pki, certs: seq<Cert>, leaf: Cert, chain: seq<Cert>)
    requires Distinct(certs) && RawIdentifies(certs) && leaf in certs
    ensures BuiltInSomeOrder(pki, certs, leaf, chain) <==> IsMaximal(pki, certs, leaf, chain)
  {
    if IsMaximal(pki, certs, leaf, chain) {
      MaximalIsBuilt(pki, certs, leaf, chain);
    }
    if BuiltInSomeOrder(pki, certs, leaf, chain) {
      var order :| Rearranges(order, certs) && ChainOf(pki, order, leaf) == chain;
      MaximalInAnyOrder(pki, certs, order, leaf);
    }
  }

  predicate EndsAtRoot(pki: Pki, chain: seq<Cert>) {
    chain != [] && IsSelfSigned(pki, chain[|chain| - 1])
  }

  ghost predicate RootReachedInEveryOrder(pki: Pki, certs: seq<Cert>, leaf: Cert) {
    forall order :: Rearranges(order, certs) ==> EndsAtRoot(pki, ChainOf(pki, order, leaf))
  }

  ghost predicate RootReachedInSomeOrder(pki: Pki, certs: seq<Cert>, leaf: Cert) {
    exists order :: Rearranges(order, certs) && EndsAtRoot(pki, ChainOf(pki, order, leaf))
  }

  // A chain that ends at a certificate that is no root and that nothing left issued.
  ghost predicate DeadEnd(pki: Pki, certs: seq<Cert>, leaf: Cert, chain: seq<Cert>) {
    && IsChain(pki, certs, leaf, chain)
    && !EndsAtRoot(pki, chain) && NoFurtherIssuer(pki, certs, chain)
  }

  // The bundle ends at a root whatever the order of the response exactly when no chain of
  // the leaf comes to a dead end.
  lemma RootIsReachedIffNoDeadEnd(pki: Pki, certs: seq<Cert>, leaf: Cert)
    requires Distinct(certs) && RawIdentifies(certs) && leaf in certs
    ensures RootReachedInEveryOrder(pki, certs, leaf) <==> forall chain :: !DeadEnd(pki, certs, leaf, chain)
  {
    forall chain | DeadEnd(pki, certs, leaf, chain) ensures !RootReachedInEveryOrder(pki, certs, leaf) {
      MaximalIsBuilt(pki, certs, leaf, chain);
    }
    if forall chain :: !DeadEnd(pki, certs, leaf, chain) {
      forall order | Rearranges(order, certs) ensures EndsAtRoot(pki, ChainOf(pki, order, leaf)) {
        MaximalInAnyOrder(pki, certs, order, leaf);
        assert !DeadEnd(pki, certs, leaf, ChainOf(pki, order, leaf));
      }
    }
  }

  // It misses a root that some chain of further certificates leads to, in some order of
  // the response, exactly when another chain comes to a dead end.
  lemma RootIsMissedIffDeadEnd(pki: Pki, certs: seq<Cert>, leaf: Cert, rooted: seq<Cert>)
    requires Distinct(certs) && RawIdentifies(certs) && leaf in certs
    requires IsChain(pki, certs, leaf, rooted) && Concluded(pki, rooted)
    ensures RootReachedInSomeOrder(pki, certs, leaf)
    ensures !RootReachedInEveryOrder(pki, certs, leaf) <==> exists chain :: DeadEnd(pki, certs, leaf, chain)
  {
    MaximalIsBuilt(pki, certs, leaf, rooted);
    RootIsReachedIffNoDeadEnd(pki, certs, leaf);
  }

  ghost predicate ChainIsOrderIndependent(pki: Pki, certs: seq<Cert>, leaf: Cert) {
    forall o1, o2 :: Rearranges(o1, certs) && Rearranges(o2, certs) ==>
      ChainOf(pki, o1, leaf) == ChainOf(pki, o2, leaf)
  }

  // No certificate of the chain that is climbed from has a second issuer to choose from.
  ghost predicate NoChoiceAlong(pki: Pki, certs: seq<Cert>, chain: seq<Cert>) {
    forall i, u :: 0 <= i < |chain| - 1 && u in certs && u !in chain[..i + 1] && Issues(pki, u, chain[i]) ==>
      u == chain[i + 1]
  }

  lemma {:induction false} LinkedPrefix(pki: Pki, from: Cert, above: seq<Cert>, n: nat)
    requires Linked(pki, from, above) && n <= |above|
    ensures Linked(pki, from, above[..n])
    ensures n < |above| && n > 0 ==> !IsSelfSigned(pki, above[n - 1])
    ensures n < |above| ==> Issues(pki, above[n], if n == 0 then from else above[n - 1])
    decreases |above|
  {
    if n > 0 {
      LinkedPrefix(pki, above[0], above[1..], n - 1);
      assert above[..n][1..] == above[1..][..n - 1];
    }
  }

  lemma {:induction false} LinkedSnoc(pki: Pki, from: Cert, above: seq<Cert>, next: Cert)
    requires Linked(pki, from, above)
    requires above != [] ==> !IsSelfSigned(pki, above[|above| - 1])
    requires Issues(pki, next, if above == [] then from else above[|above| - 1])
    ensures Linked(pki, from, above + [next])
    decreases |above|
  {
    if above == [] {
      assert [next][1..] == [];
      assert [] + [next] == [next];
    } else {
      LinkedSnoc(pki, above[0], above[1..], next);
      assert (above + [next])[1..] == above[1..] + [next];
    }
  }

  // Turning off to another issuer is the start of another chain.
  lemma TurningOffIsAChain(pki: Pki, certs: seq<Cert>, leaf: Cert, chain: seq<Cert>, i: nat, u: Cert)
    requires IsChain(pki, certs, leaf, chain) && i < |chain| - 1
    requires u in certs && u !in chain[..i + 1] && Issues(pki, u, chain[i])
    ensures IsChain(pki, certs, leaf, chain[..i + 1] + [u])
  {
    var above := chain[1..];
    LinkedPrefix(pki, leaf, above, i);
    LinkedSnoc(pki, leaf, above[..i], u);
    var other := chain[..i + 1] + [u];
    assert other[1..] == above[..i] + [u];
    assert chain[0] in chain[..i + 1];
    forall c | c in other[1..] ensures c in certs && c != leaf {
      if c != u {
        assert c in above;
      }
    }
    forall k | 0 <= k < i ensures above[k] != u {
      assert chain[..i + 1][k + 1] == above[k];
    }
  }

  // The next certificate of a chain is one that could be chosen.
  lemma NextIsAChoice(pki: Pki, certs: seq<Cert>, leaf: Cert, chain: seq<Cert>, i: nat)
    requires IsChain(pki, certs, leaf, chain) && i < |chain| - 1
    ensures chain[i + 1] in certs && chain[i + 1] !in chain[..i + 1] && Issues(pki, chain[i + 1], chain[i])
    ensures !Concluded(pki, chain[..i + 1])
  {
    var above := chain[1..];
    LinkedPrefix(pki, leaf, above, i);
    assert chain == [leaf] + above && above[i] in above;
  }

  // A maximal chain does not end where another chain goes on.
  lemma MaximalGoesOn(pki: Pki, certs: seq<Cert>, leaf: Cert, chain: seq<Cert>, other: seq<Cert>, i: nat)
    requires IsMaximal(pki, certs, leaf, chain) && IsChain(pki, certs, leaf, other) && i < |other|
    requires other[..i + 1] <= chain
    ensures i + 1 < |other| ==> i + 1 < |chain|
  {
    if i + 1 < |other| {
      NextIsAChoice(pki, certs, leaf, other, i);
    }
    assert other[i] == other[..i + 1][i];
    assert |chain| == i + 1 ==> chain == other[..i + 1];
  }

  // Of two maximal chains, one of which leaves no choice, neither parts from the other.
  lemma {:induction false} MaximalStaysWith(pki: Pki, certs: seq<Cert>, leaf: Cert, chain: seq<Cert>,
      other: seq<Cert>, n: nat)
    requires IsMaximal(pki, certs, leaf, chain) && IsMaximal(pki, certs, leaf, other)
    requires NoChoiceAlong(pki, certs, chain)
    requires 1 <= n <= |other|
    ensures other[..n] <= chain
  {
    if n > 1 {
      MaximalStaysWith(pki, certs, leaf, chain, other, n - 1);
      var i := n - 2;
      MaximalGoesOn(pki, certs, leaf, chain, other, i);
      NextIsAChoice(pki, certs, leaf, other, i);
      hide IsChain, Issues, Concluded;
      assert chain[..i + 1] == other[..i + 1];
      assert chain[i] == other[..i + 1][i];
      assert other[i + 1] == chain[i + 1];
      assert other[..n] == other[..n - 1] + [other[n - 1]];
    }
  }

  lemma NoChoiceMeansOneMaximal(pki: Pki, certs: seq<Cert>, leaf: Cert, chain: seq<Cert>, other: seq<Cert>)
    requires IsMaximal(pki, certs, leaf, chain) && IsMaximal(pki, certs, leaf, other)
    requires NoChoiceAlong(pki, certs, chain)
    ensures other == chain
  {
    MaximalStaysWith(pki, certs, leaf, chain, other, |other|);
    assert other[..|other|] == other;
    assert other == chain[..|other|];
    MaximalGoesOn(pki, certs, leaf, other, chain, |other| - 1);
  }

  lemma OrderIndependentIffOneMaximal(pki: Pki, certs: seq<Cert>, leaf: Cert)
    requires Distinct(certs) && RawIdentifies(certs) && leaf in certs
    ensures ChainIsOrderIndependent(pki, certs, leaf) <==>
      forall a, b :: IsMaximal(pki, certs, leaf, a) && IsMaximal(pki, certs, leaf, b) ==> a == b
  {
    if ChainIsOrderIndependent(pki, certs, leaf) {
      forall a, b | IsMaximal(pki, certs, leaf, a) && IsMaximal(pki, certs, leaf, b) ensures a == b {
        MaximalIsBuilt(pki, certs, leaf, a);
        MaximalIsBuilt(pki, certs, leaf, b);
      }
    }
    forall order | Rearranges(order, certs) ensures IsMaximal(pki, certs, leaf, ChainOf(pki, order, leaf)) {
      MaximalInAnyOrder(pki, certs, order, leaf);
    }
  }

  // The chain is the same for every order exactly when nowhere along it a second issuer
  // could have been chosen. One look along the chain of any order tells.
  lemma ChainOrderIndependence(pki: Pki, certs: seq<Cert>, leaf: Cert)
    requires Distinct(certs) && RawIdentifies(certs) && leaf in certs
    ensures ChainIsOrderIndependent(pki, certs, leaf) <==> NoChoiceAlong(pki, certs, ChainOf(pki, certs, leaf))
  {
    var chain := ChainOf(pki, certs, leaf);
    ChainIsMaximal(pki, certs, leaf);
    if NoChoiceAlong(pki, certs, chain) {
      forall order | Rearranges(order, certs) ensures ChainOf(pki, order, leaf) == chain {
        MaximalInAnyOrder(pki, certs, order, leaf);
        NoChoiceMeansOneMaximal(pki, certs, leaf, chain, ChainOf(pki, order, leaf));
      }
    }
    if ChainIsOrderIndependent(pki, certs, leaf) {
      forall i, u | 0 <= i < |chain| - 1 && u in certs && u !in chain[..i + 1] && Issues(pki, u, chain[i])
        ensures u == chain[i + 1]
      {
        var turned := chain[..i + 1] + [u];
        TurningOffIsAChain(pki, certs, leaf, chain, i, u);
        ChainFirstRearranges(pki, certs, leaf, turned);
        ChainFirstIsFollowed(pki, certs, leaf, turned);
        assert Rearranges(certs, certs);
        assert ChainOf(pki, ChainFirst(certs, turned), leaf) == chain;
        assert turned <= chain;
      }
    }
  }

  // ---------- order and unrelated certificates ----------

  // No certificate beyond the first pool issued the given one or anything above it.
  ghost predicate Unrelated(pki: Pki, certs: seq<Cert>, more: seq<Cert>, chain: seq<Cert>) {
    forall c, extra :: c in chain && extra in more && extra !in certs ==> !Issues(pki, extra, c)
  }

  lemma {:induction false} ClimbIgnoresUnrelated(pki: Pki, certs: seq<Cert>, remaining: seq<Cert>,
      more: seq<Cert>, current: Cert)
    requires OneIssuerEach(pki, certs) && Distinct(remaining) && Distinct(more)
    requires current in certs && current !in more && forall c :: c in remaining ==> c in certs && c in more
    requires forall c :: c in more && c in certs ==> c in remaining
    requires Unrelated(pki, certs, more, [current] + Climb(pki, remaining, current))
    ensures Climb(pki, more, current) == Climb(pki, remaining, current)
    decreases |remaining|
  {
    var chain := [current] + Climb(pki, remaining, current);
    var i, j := FirstIssuer(pki, remaining, current), FirstIssuer(pki, more, current);
    assert chain[0] == current;
    if j < |more| {
      assert more[j] in more && more[j] in certs;
      var k :| 0 <= k < |remaining| && remaining[k] == more[j];
    }
    if i < |remaining| {
      var issuer := remaining[i];
      assert issuer in remaining;
      var k :| 0 <= k < |more| && more[k] == issuer;
      assert more[j] == issuer;
      if !IsSelfSigned(pki, issuer) {
        WithoutRemoves(remaining, i);
        WithoutRemoves(more, j);
        assert chain[1..] == [issuer] + Climb(pki, Without(remaining, i), issuer);
        assert forall c :: c in chain[1..] ==> c in chain;
        ClimbIgnoresUnrelated(pki, certs, Without(remaining, i), Without(more, j), issuer);
      }
    }
  }

  // The chain depends neither on the order of the certificates nor on further ones that
  // issued nothing on it.
  lemma ChainIgnoresOrderAndUnrelated(pki: Pki, certs: seq<Cert>, more: seq<Cert>, leaf: Cert)
    requires Distinct(certs) && Distinct(more) && RawIdentifies(more) && leaf in certs
    requires forall c :: c in certs ==> c in more
    requires OneIssuerEach(pki, certs)
    requires Unrelated(pki, certs, more, ChainOf(pki, certs, leaf))
    ensures ChainOf(pki, more, leaf) == ChainOf(pki, certs, leaf)
  {
    OthersAreTheRest(certs, leaf);
    OthersAreTheRest(more, leaf);
    OthersStayDistinct(certs, leaf);
    OthersStayDistinct(more, leaf);
    ClimbIgnoresUnrelated(pki, certs, Others(certs, leaf), Others(more, leaf), leaf);
  }

  // ---------- the leaf and the bundle ----------

  // The first certificate with the request's key; any, when the key cannot be compared.
  function LeafFor(certs: seq<Cert>, key: PublicKey): (leaf: Option<Cert>)
    requires certs != []
    ensures leaf.Some? ==> leaf.value in certs && (key.Comparable? ==> leaf.value.key == key)
    ensures leaf.None? ==> key.Comparable? && forall c :: c in certs ==> c.key != key
  {
    if !key.Comparable? || certs[0].key == key then Some(certs[0])
    else if |certs| == 1 then None
    else
      assert certs == [certs[0]] + certs[1..];
      LeafFor(certs[1..], key)
  }

  datatype Bundle = Bundle(leaf: Cert, chain: seq<Cert>, chainPEM: string)

  datatype ChainError = NoCertificates | NoMatchingKey

  function BundleOf(pki: Pki, certs: seq<Cert>, key: PublicKey): Result<Bundle, ChainError> {
    if certs == [] then Err(NoCertificates)
    else
      var leaf := LeafFor(certs, key);
      if leaf.None? then Err(NoMatchingKey)
      else
        var chain := ChainOf(pki, certs, leaf.value);
        Ok(Bundle(leaf.value, chain, EncodeAll(pki, chain)))
  }

  method FindLeaf(certs: seq<Cert>, key: PublicKey) returns (leaf: Option<Cert>)
    requires certs != []
    ensures leaf == LeafFor(certs, key)
  {
    if !key.Comparable? {
      return Some(certs[0]);
    }
    for i := 0 to |certs|
      invariant i < |certs| ==> LeafFor(certs[i..], key) == LeafFor(certs, key)
      invariant i == |certs| ==> LeafFor(certs, key) == None
    {
      assert i + 1 < |certs| ==> certs[i..][1..] == certs[i + 1..];
      if certs[i].key == key {
        return Some(certs[i]);
      }
    }
    return None;
  }

  method PopIssuer(pki: Pki, candidates: seq<Cert>, child: Cert) returns (issuer: Option<Cert>, rest: seq<Cert>)
    ensures var i := FirstIssuer(pki, candidates, child);
      if i == |candidates| then issuer == None && rest == candidates
      else issuer == Some(candidates[i]) && rest == Without(candidates, i)
  {
    for i := 0 to |candidates|
      invariant forall j :: 0 <= j < i ==> !Issues(pki, candidates[j], child)
    {
      var candidate := candidates[i];
      if candidate.subject != child.issuer {
        continue;
      }
      if !pki.signedBy(child, candidate) {
        continue;
      }
      return Some(candidate), candidates[..i] + candidates[i + 1..];
    }
    return None, candidates;
  }

  lemma OthersStep(certs: seq<Cert>, leaf: Cert, before: seq<Cert>)
    requires certs != []
    ensures before + Others(certs, leaf) ==
      (if certs[0].raw != leaf.raw then before + [certs[0]] else before) + Others(certs[1..], leaf)
  {
    if certs[0].raw != leaf.raw {
      Associate(before, [certs[0]], Others(certs[1..], leaf));
    } else {
      assert [] + Others(certs[1..], leaf) == Others(certs[1..], leaf);
    }
  }

  // The certificates that are not the leaf.
  method ExceptLeaf(certs: seq<Cert>, leaf: Cert) returns (remaining: seq<Cert>)
    ensures remaining == Others(certs, leaf)
  {
    remaining := [];
    for i := 0 to |certs|
      invariant remaining + Others(certs[i..], leaf) == Others(certs, leaf)
    {
      OthersStep(certs[i..], leaf, remaining);
      assert certs[i..][1..] == certs[i + 1..];
      if certs[i].raw != leaf.raw {
        remaining := remaining + [certs[i]];
      }
    }
  }

  // Follows the issuers upwards, taking each out of the remaining certificates.
  method ClimbFrom(pki: Pki, leaf: Cert, others: seq<Cert>) returns (chain: seq<Cert>)
    ensures chain == [leaf] + Climb(pki, others, leaf)
  {
    chain := [leaf];
    var remaining, current := others, leaf;
    while |remaining| > 0
      invariant chain + Climb(pki, remaining, current) == [leaf] + Climb(pki, others, leaf)
      decreases |remaining|
    {
      var issuer, rest := PopIssuer(pki, remaining, current);
      if issuer.None? {
        break;
      }
      ghost var above := Climb(pki, remaining, current);
      chain := chain + [issuer.value];
      remaining := rest;
      current := issuer.value;
      if IsSelfSigned(pki, current) {
        assert above == [current];
        return;
      }
      assert above == [current] + Climb(pki, remaining, current);
    }
  }

  method BuildBundle(pki: Pki, certs: seq<Cert>, key: PublicKey) returns (r: Result<Bundle, ChainError>)
    ensures r == BundleOf(pki, certs, key)
  {
    if |certs| == 0 {
      return Err(NoCertificates);
    }
    var leaf := FindLeaf(certs, key);
    if leaf.None? {
      return Err(NoMatchingKey);
    }
    var remaining := ExceptLeaf(certs, leaf.value);
    var chain := ClimbFrom(pki, leaf.value, remaining);
    var pem := EncodeCertificates(pki, chain);
    return Ok(Bundle(leaf.value, chain, pem));
  }

  function CertificateBlock(c: Cert): Block {
    Block(PEM_CERTIFICATE, c.raw, false)
  }

  function EncodeAll(pki: Pki, certs: seq<Cert>): string {
    if certs == [] then "" else pki.encodePem(CertificateBlock(certs[0])) + EncodeAll(pki, certs[1..])
  }

  method EncodeCertificates(pki: Pki, certs: seq<Cert>) returns (buf: string)
    ensures buf == EncodeAll(pki, certs)
  {
    buf := "";
    for i := 0 to |certs|
      invariant buf + EncodeAll(pki, certs[i..]) == EncodeAll(pki, certs)
    {
      assert certs[i..][1..] == certs[i + 1..];
      buf := buf + pki.encodePem(CertificateBlock(certs[i]));
    }
  }

  // With one certificate for the request's key, the whole bundle is the same for any
  // order of the response and whatever unrelated certificates it also holds.
  lemma BundleIgnoresOrderAndUnrelated(pki: Pki, certs: seq<Cert>, more: seq<Cert>, key: PublicKey, leaf: Cert)
    requires key.Comparable? && leaf in certs && leaf.key == key
    requires forall c :: c in more && c.key == key ==> c == leaf
    requires Distinct(certs) && Distinct(more) && RawIdentifies(more)
    requires forall c :: c in certs ==> c in more
    requires OneIssuerEach(pki, certs)
    requires Unrelated(pki, certs, more, ChainOf(pki, certs, leaf))
    ensures BundleOf(pki, more, key) == BundleOf(pki, certs, key)
    ensures BundleOf(pki, certs, key).Ok? && BundleOf(pki, certs, key).value.leaf == leaf
  {
    ChainIgnoresOrderAndUnrelated(pki, certs, more, leaf);
  }

  // ---------- the bundle in plain terms ----------

  // Each certificate names the next as its issuer and is signed with the next one's key.
  ghost predicate SignedUpwards(pki: Pki, chain: seq<Cert>) {
    forall i :: 0 <= i < |chain| - 1 ==> chain[i].issuer == chain[i + 1].subject && pki.signedBy(chain[i], chain[i + 1])
  }

  // The last certificate signed itself, or no other given one is its issuer by name and
  // signature.
  ghost predicate EndsForGood(pki: Pki, certs: seq<Cert>, chain: seq<Cert>)
    requires chain != []
  {
    var last := chain[|chain| - 1];
    || (last.subject == last.issuer && pki.signedBy(last, last))
    || (forall c :: c in certs && c !in chain ==> !(c.subject == last.issuer && pki.signedBy(last, c)))
  }

  lemma {:induction false} LinkedIsSigned(pki: Pki, from: Cert, above: seq<Cert>)
    requires Linked(pki, from, above)
    ensures SignedUpwards(pki, [from] + above)
    decreases |above|
  {
    if above != [] {
      LinkedIsSigned(pki, above[0], above[1..]);
      var chain, rest := [from] + above, [above[0]] + above[1..];
      assert above == rest;
      forall i | 0 <= i < |chain| - 1
        ensures chain[i].issuer == chain[i + 1].subject && pki.signedBy(chain[i], chain[i + 1])
      {
        assert i > 0 ==> chain[i] == rest[i - 1] && chain[i + 1] == rest[i];
      }
    }
  }

  // No certificate but the first and the last signed itself.
  lemma {:induction false} LinkedPassesRootsLast(pki: Pki, from: Cert, above: seq<Cert>, i: nat)
    requires Linked(pki, from, above) && i < |above| - 1
    ensures !(above[i].subject == above[i].issuer && pki.signedBy(above[i], above[i]))
    decreases |above|
  {
    if i > 0 {
      LinkedPassesRootsLast(pki, above[0], above[1..], i - 1);
    }
  }

  lemma MaximalInPlainTerms(pki: Pki, certs: seq<Cert>, leaf: Cert, chain: seq<Cert>)
    requires leaf in certs && IsMaximal(pki, certs, leaf, chain)
    ensures chain[0] == leaf && (forall c :: c in chain ==> c in certs)
    ensures forall i, j :: 0 <= i < j < |chain| ==> chain[i] != chain[j]
    ensures SignedUpwards(pki, chain) && EndsForGood(pki, certs, chain)
    ensures forall i :: 0 < i < |chain| - 1 ==> !(chain[i].subject == chain[i].issuer && pki.signedBy(chain[i], chain[i]))
  {
    var above := chain[1..];
    assert chain == [leaf] + above;
    LinkedIsSigned(pki, leaf, above);
    forall i | 0 < i < |chain| - 1
      ensures !(chain[i].subject == chain[i].issuer && pki.signedBy(chain[i], chain[i]))
    {
      LinkedPassesRootsLast(pki, leaf, above, i - 1);
    }
    forall i, j | 0 <= i < j < |chain| ensures chain[i] != chain[j] {
      assert chain[j] == above[j - 1] && above[j - 1] in above;
    }
    var last := chain[|chain| - 1];
    assert EndsAtRoot(pki, chain) || NoFurtherIssuer(pki, certs, chain);
  }

  // What BuildBundle returns: a certificate with the request's key and, above it, ever the
  // certificate that signed the one before, as far as the response goes.
  lemma BundleInPlainTerms(pki: Pki, certs: seq<Cert>, key: PublicKey)
    requires forall i, j :: 0 <= i < j < |certs| ==> certs[i].raw != certs[j].raw
    ensures var r := BundleOf(pki, certs, key);
      && (r.Ok? <==> exists c :: c in certs && (key.Comparable? ==> c.key == key))
      && (r.Ok? ==>
           var chain := r.value.chain;
           && chain != [] && chain[0] == r.value.leaf && (key.Comparable? ==> r.value.leaf.key == key)
           && (forall c :: c in chain ==> c in certs)
           && (forall i, j :: 0 <= i < j < |chain| ==> chain[i] != chain[j])
           && SignedUpwards(pki, chain) && EndsForGood(pki, certs, chain))
  {
    if certs != [] {
      assert certs[0] in certs;
      var leaf := LeafFor(certs, key);
      if leaf.Some? {
        ChainIsMaximal(pki, certs, leaf.value);
        MaximalInPlainTerms(pki, certs, leaf.value, ChainOf(pki, certs, leaf.value));
      }
    }
    hide IsMaximal, ChainOf, LeafFor, SignedUpwards, EndsForGood, EncodeAll;
  }

  ghost predicate Precedes(certs: seq<Cert>, a: Cert, b: Cert) {
    exists j, i :: 0 <= j < i < |certs| && certs[j] == a && certs[i] == b
  }

  // Where there is a choice the certificate given first is taken: one given before the next
  // of the chain did not sign the one below it, or is in the chain already.
  ghost predicate TakesTheFirst(pki: Pki, certs: seq<Cert>, chain: seq<Cert>) {
    forall k, c :: 0 <= k < |chain| - 1 && Precedes(certs, c, chain[k + 1]) ==>
      c in chain[..k + 1] || !(c.subject == chain[k].issuer && pki.signedBy(chain[k], c))
  }

  lemma WithoutKeepsOrder(certs: seq<Cert>, f: nat, a: Cert, b: Cert)
    requires f < |certs| && Precedes(certs, a, b) && a != certs[f] && b != certs[f]
    ensures Precedes(Without(certs, f), a, b)
  {
    var j, i :| 0 <= j < i < |certs| && certs[j] == a && certs[i] == b;
    var rest := Without(certs, f);
    assert rest[if j < f then j else j - 1] == a && rest[if i < f then i else i - 1] == b;
  }

  lemma {:induction false} OthersKeepOrder(certs: seq<Cert>, leaf: Cert, a: Cert, b: Cert)
    requires Precedes(certs, a, b) && a.raw != leaf.raw && b.raw != leaf.raw
    ensures Precedes(Others(certs, leaf), a, b)
  {
    var j, i :| 0 <= j < i < |certs| && certs[j] == a && certs[i] == b;
    var rest := Others(certs[1..], leaf);
    if j > 0 {
      assert certs[1..][j - 1] == a && certs[1..][i - 1] == b;
      OthersKeepOrder(certs[1..], leaf, a, b);
      var m, n :| 0 <= m < n < |rest| && rest[m] == a && rest[n] == b;
      if certs[0].raw != leaf.raw {
        assert Others(certs, leaf)[m + 1] == a && Others(certs, leaf)[n + 1] == b;
      } else {
        assert Others(certs, leaf)[m] == a && Others(certs, leaf)[n] == b;
      }
    } else {
      OthersByRaw(certs[1..], leaf);
      assert b in certs[1..];
      var n :| 0 <= n < |rest| && rest[n] == b;
      assert Others(certs, leaf)[0] == a && Others(certs, leaf)[n + 1] == b;
    }
  }

  lemma {:induction false} ClimbTakesTheFirst(pki: Pki, remaining: seq<Cert>, current: Cert)
    requires Distinct(remaining)
    ensures TakesTheFirst(pki, remaining, [current] + Climb(pki, remaining, current))
    decreases |remaining|
  {
    var above, f := Climb(pki, remaining, current), FirstIssuer(pki, remaining, current);
    var chain := [current] + above;
    if f < |remaining| {
      var next, rest := remaining[f], Without(remaining, f);
      WithoutRemoves(remaining, f);
      var later := [next] + Climb(pki, rest, next);
      ClimbTakesTheFirst(pki, rest, next);
      ClimbAscends(pki, rest, next);
      forall k, c | 0 <= k < |chain| - 1 && Precedes(remaining, c, chain[k + 1])
        ensures c in chain[..k + 1] || !(c.subject == chain[k].issuer && pki.signedBy(chain[k], c))
      {
        if k == 0 {
          assert chain[1] == next;
        } else {
          assert chain == [current] + later && chain[k] == later[k - 1] && chain[k + 1] == later[k];
          assert later[k] in rest;
          if c == next {
            assert chain[..k + 1][1] == next;
          } else {
            WithoutKeepsOrder(remaining, f, c, later[k]);
            assert chain[..k + 1] == [current] + later[..k];
          }
        }
      }
    }
  }

  // The leaf is the first certificate with the key, and each step takes the first that fits.
  lemma BundleTakesTheFirst(pki: Pki, certs: seq<Cert>, key: PublicKey)
    requires forall i, j :: 0 <= i < j < |certs| ==> certs[i].raw != certs[j].raw
    requires BundleOf(pki, certs, key).Ok?
    ensures var bundle := BundleOf(pki, certs, key).value;
      && (forall c :: Precedes(certs, c, bundle.leaf) ==> key.Comparable? && c.key != key)
      && TakesTheFirst(pki, certs, bundle.chain)
  {
    var leaf := LeafFor(certs, key).value;
    var chain := ChainOf(pki, certs, leaf);
    LeafIsTheFirst(certs, key);
    OthersStayDistinct(certs, leaf);
    ClimbTakesTheFirst(pki, Others(certs, leaf), leaf);
    ClimbAscends(pki, Others(certs, leaf), leaf);
    OthersByRaw(certs, leaf);
    forall k, c | 0 <= k < |chain| - 1 && Precedes(certs, c, chain[k + 1])
      ensures c in chain[..k + 1] || !(c.subject == chain[k].issuer && pki.signedBy(chain[k], c))
    {
      if c.raw == leaf.raw {
        assert c == leaf && chain[..k + 1][0] == leaf;
      } else {
        assert chain[k + 1] in Others(certs, leaf);
        OthersKeepOrder(certs, leaf, c, chain[k + 1]);
      }
    }
  }

  lemma {:induction false} LeafIsTheFirst(certs: seq<Cert>, key: PublicKey)
    requires certs != [] && LeafFor(certs, key).Some? && Distinct(certs)
    ensures forall c :: Precedes(certs, c, LeafFor(certs, key).value) ==> key.Comparable? && c.key != key
  {
    var leaf := LeafFor(certs, key).value;
    forall c | Precedes(certs, c, leaf) ensures key.Comparable? && c.key != key {
      var j, i :| 0 <= j < i < |certs| && certs[j] == c && certs[i] == leaf;
      if j > 0 {
        assert certs[1..][j - 1] == c && certs[1..][i - 1] == leaf;
        LeafIsTheFirst(certs[1..], key);
      }
    }
  }

  // ---------- the bundle over all orders ----------

  // BuildBundle takes the certificate for the leaf in some order of the response.
  predicate CanBeLeaf(certs: seq<Cert>, key: PublicKey, leaf: Cert) {
    leaf in certs && (key.Comparable? ==> leaf.key == key)
  }

  // Some order of the certificates makes BuildBundle return the chain for the leaf.
  ghost predicate BundledInSomeOrder(pki: Pki, certs: seq<Cert>, key: PublicKey, leaf: Cert, chain: seq<Cert>) {
    exists order :: Rearranges(order, certs)
      && BundleOf(pki, order, key) == Ok(Bundle(leaf, chain, EncodeAll(pki, chain)))
  }

  lemma BundleInAnyOrder(pki: Pki, certs: seq<Cert>, order: seq<Cert>, key: PublicKey)
    requires Distinct(certs) && RawIdentifies(certs) && Rearranges(order, certs)
    ensures var r := BundleOf(pki, order, key);
      && (r.Ok? <==> exists leaf :: CanBeLeaf(certs, key, leaf))
      && (r.Ok? ==>
           && CanBeLeaf(certs, key, r.value.leaf) && r.value.chain == ChainOf(pki, order, r.value.leaf)
           && IsMaximal(pki, certs, r.value.leaf, r.value.chain))
  {
    RearrangedStaysDistinct(order, certs);
    if order != [] {
      assert order[0] in order;
      var leaf := LeafFor(order, key);
      if leaf.Some? {
        MaximalInAnyOrder(pki, certs, order, leaf.value);
        assert CanBeLeaf(certs, key, leaf.value);
      }
      hide IsMaximal, ChainOf, LeafFor, Rearranges, Distinct, RawIdentifies, EncodeAll;
    }
  }

  lemma MaximalIsBundled(pki: Pki, certs: seq<Cert>, key: PublicKey, leaf: Cert, chain: seq<Cert>)
    requires Distinct(certs) && RawIdentifies(certs)
    requires CanBeLeaf(certs, key, leaf) && IsMaximal(pki, certs, leaf, chain)
    ensures Rearranges(ChainFirst(certs, chain), certs)
    ensures BundleOf(pki, ChainFirst(certs, chain), key) == Ok(Bundle(leaf, chain, EncodeAll(pki, chain)))
  {
    MaximalIsBuilt(pki, certs, leaf, chain);
    assert ChainFirst(certs, chain)[0] == leaf;
  }

  // Over all orders of a response, what is returned are exactly the maximal chains of the
  // certificates with the request's key.
  lemma BundlesAreTheMaximalChains(pki: Pki, certs: seq<Cert>, key: PublicKey, leaf: Cert, chain: seq<Cert>)
    requires Distinct(certs) && RawIdentifies(certs)
    ensures BundledInSomeOrder(pki, certs, key, leaf, chain) <==>
      CanBeLeaf(certs, key, leaf) && IsMaximal(pki, certs, leaf, chain)
  {
    if CanBeLeaf(certs, key, leaf) && IsMaximal(pki, certs, leaf, chain) {
      MaximalIsBundled(pki, certs, key, leaf, chain);
    }
    if BundledInSomeOrder(pki, certs, key, leaf, chain) {
      var order :| Rearranges(order, certs)
        && BundleOf(pki, order, key) == Ok(Bundle(leaf, chain, EncodeAll(pki, chain)));
      BundleInAnyOrder(pki, certs, order, key);
    }
  }

  ghost predicate BundleEndsAtRootInEveryOrder(pki: Pki, certs: seq<Cert>, key: PublicKey) {
    forall order :: Rearranges(order, certs) && BundleOf(pki, order, key).Ok? ==>
      EndsAtRoot(pki, BundleOf(pki, order, key).value.chain)
  }

  ghost predicate BundleEndsAtRootInSomeOrder(pki: Pki, certs: seq<Cert>, key: PublicKey) {
    exists order :: Rearranges(order, certs) && BundleOf(pki, order, key).Ok?
      && EndsAtRoot(pki, BundleOf(pki, order, key).value.chain)
  }

  // It does in some order exactly when some maximal chain of such a certificate does.
  lemma BundleEndsAtRootInSomeOrderIff(pki: Pki, certs: seq<Cert>, key: PublicKey)
    requires Distinct(certs) && RawIdentifies(certs)
    ensures BundleEndsAtRootInSomeOrder(pki, certs, key) <==>
      exists leaf, chain :: CanBeLeaf(certs, key, leaf) && IsMaximal(pki, certs, leaf, chain) && EndsAtRoot(pki, chain)
  {
    if leaf, chain :| CanBeLeaf(certs, key, leaf) && IsMaximal(pki, certs, leaf, chain) && EndsAtRoot(pki, chain) {
      MaximalIsBundled(pki, certs, key, leaf, chain);
    }
    if BundleEndsAtRootInSomeOrder(pki, certs, key) {
      var order :| Rearranges(order, certs) && BundleOf(pki, order, key).Ok?
        && EndsAtRoot(pki, BundleOf(pki, order, key).value.chain);
      BundleInAnyOrder(pki, certs, order, key);
    }
  }

  // The bundle ends at a root whatever the order exactly when no chain of any certificate
  // with the request's key comes to a dead end.
  lemma BundleEndsAtRootIffNoDeadEnd(pki: Pki, certs: seq<Cert>, key: PublicKey)
    requires Distinct(certs) && RawIdentifies(certs)
    ensures BundleEndsAtRootInEveryOrder(pki, certs, key) <==>
      forall leaf, chain :: CanBeLeaf(certs, key, leaf) ==> !DeadEnd(pki, certs, leaf, chain)
  {
    forall leaf, chain | CanBeLeaf(certs, key, leaf) && DeadEnd(pki, certs, leaf, chain)
      ensures !BundleEndsAtRootInEveryOrder(pki, certs, key)
    {
      MaximalIsBundled(pki, certs, key, leaf, chain);
    }
    if forall leaf, chain :: CanBeLeaf(certs, key, leaf) ==> !DeadEnd(pki, certs, leaf, chain) {
      forall order | Rearranges(order, certs) && BundleOf(pki, order, key).Ok?
        ensures EndsAtRoot(pki, BundleOf(pki, order, key).value.chain)
      {
        BundleInAnyOrder(pki, certs, order, key);
        var b := BundleOf(pki, order, key).value;
        assert !DeadEnd(pki, certs, b.leaf, b.chain);
      }
    }
  }

  ghost predicate BundleIsOrderIndependent(pki: Pki, certs: seq<Cert>, key: PublicKey) {
    forall o1, o2 :: Rearranges(o1, certs) && Rearranges(o2, certs) ==>
      BundleOf(pki, o1, key) == BundleOf(pki, o2, key)
  }

  ghost predicate OneLeaf(certs: seq<Cert>, key: PublicKey) {
    forall a, b :: CanBeLeaf(certs, key, a) && CanBeLeaf(certs, key, b) ==> a == b
  }

  // An independent bundle is that of one leaf, and the chain of that leaf is independent.
  lemma IndependentBundleHasOneLeaf(pki: Pki, certs: seq<Cert>, key: PublicKey)
    requires Distinct(certs) && RawIdentifies(certs) && BundleIsOrderIndependent(pki, certs, key)
    ensures OneLeaf(certs, key)
    ensures forall leaf :: CanBeLeaf(certs, key, leaf) ==> ChainIsOrderIndependent(pki, certs, leaf)
  {
    forall a, b | CanBeLeaf(certs, key, a) && CanBeLeaf(certs, key, b) ensures a == b {
      ChainIsMaximal(pki, certs, a);
      ChainIsMaximal(pki, certs, b);
      MaximalIsBundled(pki, certs, key, a, ChainOf(pki, certs, a));
      MaximalIsBundled(pki, certs, key, b, ChainOf(pki, certs, b));
    }
    forall leaf | CanBeLeaf(certs, key, leaf) ensures ChainIsOrderIndependent(pki, certs, leaf) {
      forall a, b | IsMaximal(pki, certs, leaf, a) && IsMaximal(pki, certs, leaf, b) ensures a == b {
        MaximalIsBundled(pki, certs, key, leaf, a);
        MaximalIsBundled(pki, certs, key, leaf, b);
      }
      OrderIndependentIffOneMaximal(pki, certs, leaf);
    }
  }

  // The bundle is the same for every order exactly when at most one certificate can be the
  // leaf and nowhere along its chain a second issuer could have been chosen.
  lemma BundleOrderIndependence(pki: Pki, certs: seq<Cert>, key: PublicKey)
    requires Distinct(certs) && RawIdentifies(certs)
    ensures BundleIsOrderIndependent(pki, certs, key) <==>
      && OneLeaf(certs, key)
      && forall leaf :: CanBeLeaf(certs, key, leaf) ==> NoChoiceAlong(pki, certs, ChainOf(pki, certs, leaf))
  {
    forall leaf | CanBeLeaf(certs, key, leaf)
      ensures ChainIsOrderIndependent(pki, certs, leaf) <==> NoChoiceAlong(pki, certs, ChainOf(pki, certs, leaf))
    {
      ChainOrderIndependence(pki, certs, leaf);
    }
    if BundleIsOrderIndependent(pki, certs, key) {
      IndependentBundleHasOneLeaf(pki, certs, key);
    }
    if OneLeaf(certs, key) && forall leaf :: CanBeLeaf(certs, key, leaf) ==> ChainIsOrderIndependent(pki, certs, leaf) {
      forall o1, o2 | Rearranges(o1, certs) && Rearranges(o2, certs)
        ensures BundleOf(pki, o1, key) == BundleOf(pki, o2, key)
      {
        SameBundle(pki, certs, key, o1, o2);
      }
    }
  }

  lemma SameBundle(pki: Pki, certs: seq<Cert>, key: PublicKey, o1: seq<Cert>, o2: seq<Cert>)
    requires Distinct(certs) && RawIdentifies(certs) && Rearranges(o1, certs) && Rearranges(o2, certs)
    requires OneLeaf(certs, key)
    requires forall leaf :: CanBeLeaf(certs, key, leaf) ==> ChainIsOrderIndependent(pki, certs, leaf)
    ensures BundleOf(pki, o1, key) == BundleOf(pki, o2, key)
  {
    BundleInAnyOrder(pki, certs, o1, key);
    BundleInAnyOrder(pki, certs, o2, key);
    assert |o1| == |multiset(o1)| == |certs| && |o2| == |multiset(o2)|;
  }

  lemma OthersOfTwo(a: Cert, b: Cert)
    requires a.raw != b.raw
    ensures Others([a, b], a) == [b] && Others([a, b], b) == [a]
  {
    var certs := [a, b];
    assert certs[1..] == [b] && [b][1..] == [];
    assert Others([b], a) == [b] + Others([], a) && Others([b], b) == Others([], b);
  }

  // Two certificates of the request's key, as a request signed twice has: each by itself
  // leaves no choice, yet the first in the response is taken.
  lemma TwoLeavesAreAmbiguous(pki: Pki, a: Cert, b: Cert, key: PublicKey)
    requires a.raw != b.raw && a.key == b.key == key && key.Comparable?
    requires !Issues(pki, a, b) && !Issues(pki, b, a)
    ensures NoChoiceAlong(pki, [a, b], ChainOf(pki, [a, b], a)) && NoChoiceAlong(pki, [a, b], ChainOf(pki, [a, b], b))
    ensures BundleOf(pki, [a, b], key).Ok? && BundleOf(pki, [b, a], key).Ok?
    ensures BundleOf(pki, [a, b], key).value.leaf == a && BundleOf(pki, [b, a], key).value.leaf == b
    ensures !BundleIsOrderIndependent(pki, [a, b], key)
  {
    var certs := [a, b];
    OthersOfTwo(a, b);
    ClimbStops(pki, [b], a);
    ClimbStops(pki, [a], b);
    assert ChainOf(pki, certs, a) == [a] && ChainOf(pki, certs, b) == [b];
    assert Rearranges([b, a], certs) && Rearranges(certs, certs);
  }

  // ---------- what the hypotheses are for ----------

  lemma {:induction false} OthersKeepsAll(certs: seq<Cert>, leaf: Cert)
    requires forall c :: c in certs ==> c.raw != leaf.raw
    ensures Others(certs, leaf) == certs
  {
    if certs != [] {
      assert certs[0] in certs;
      OthersKeepsAll(certs[1..], leaf);
    }
  }

  // One step up, to an issuer that comes first.
  lemma ClimbToFirst(pki: Pki, issuer: Cert, rest: seq<Cert>, current: Cert)
    requires Issues(pki, issuer, current) && !IsSelfSigned(pki, issuer)
    ensures Climb(pki, [issuer] + rest, current) == [issuer] + Climb(pki, rest, issuer)
  {
    assert Without([issuer] + rest, 0) == rest;
  }

  lemma {:induction false} ClimbStops(pki: Pki, remaining: seq<Cert>, current: Cert)
    requires forall i :: 0 <= i < |remaining| ==> !Issues(pki, remaining[i], current)
    ensures Climb(pki, remaining, current) == []
  {}

  // The chain of a leaf that comes first, above it at least two issuers in a row.
  lemma ChainFromFirst(pki: Pki, leaf: Cert, a: Cert, rest: seq<Cert>)
    requires leaf.raw != a.raw && forall c :: c in rest ==> c.raw != leaf.raw
    requires Issues(pki, a, leaf) && !IsSelfSigned(pki, a)
    ensures ChainOf(pki, [leaf, a] + rest, leaf) == [leaf, a] + Climb(pki, rest, a)
  {
    hide Climb, FirstIssuer;
    var certs, others := [leaf, a] + rest, [a] + rest;
    assert certs[0] == leaf && certs[1..] == others;
    OthersKeepsAll(others, leaf);
    assert Others(certs, leaf) == Others(certs[1..], leaf);
    ClimbToFirst(pki, a, rest, leaf);
    var above := Climb(pki, rest, a);
    assert [leaf] + ([a] + above) == [leaf, a] + above;
  }

  // A leaf below an intermediate that was cross-signed: the certificate met first leads
  // nowhere, the other to the root. Both carry the same subject.
  lemma GreedyChoiceCanMissTheRoot(pki: Pki, leaf: Cert, crossed: Cert, direct: Cert, root: Cert)
    requires leaf.issuer == crossed.subject == direct.subject && direct.issuer == root.subject == root.issuer
    requires crossed.issuer != root.subject && crossed.issuer != direct.subject && direct.issuer != direct.subject
    requires leaf.raw !in {crossed.raw, direct.raw, root.raw} && crossed != direct && direct != root
    requires forall c, p :: pki.signedBy(c, p) <==> p.subject == c.issuer
    ensures ChainOf(pki, [leaf, crossed] + [direct, root], leaf) == [leaf, crossed]
    ensures IsChain(pki, [leaf, crossed] + [direct, root], leaf, [leaf, direct, root])
  {
    ChainFromFirst(pki, leaf, crossed, [direct, root]);
    ClimbStops(pki, [direct, root], crossed);
    var above := [leaf, direct, root][1..];
    assert above == [direct, root] && above[1..] == [root];
    assert Linked(pki, direct, [root]);
  }

  // Given the same certificate twice, a chain through two that issued each other uses
  // both copies: nothing repeats only because duplicates are removed beforehand.
  lemma DuplicatesCanRepeat(pki: Pki, leaf: Cert, a: Cert, b: Cert)
    requires leaf.issuer == a.subject && a.issuer == b.subject && b.issuer == a.subject
    requires a.subject != b.subject && leaf.raw != a.raw && leaf.raw != b.raw
    requires forall c, p :: pki.signedBy(c, p) <==> p.subject == c.issuer
    ensures ChainOf(pki, [leaf, a] + [b, a], leaf) == [leaf, a, b, a]
  {
    ChainFromFirst(pki, leaf, a, [b, a]);
    assert [b, a] == [b] + [a] && [a] == [a] + [];
    ClimbToFirst(pki, b, [a], a);
    ClimbToFirst(pki, a, [], b);
    ClimbStops(pki, [], a);
  }
}
