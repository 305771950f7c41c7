// Which stored request a response is about: findIDForCommonName of
// internal/kmp/response.go and the choice FindCSRID of internal/kmp/client.go makes.
module Identifiers {
  import opened Basics
  import opened Text
  import opened Documents
  import opened Response

  // What is looked for: the normalised id and name keys, and the common name.
  datatype IdQuery = IdQuery(ids: set<string>, names: set<string>, commonName: string)

  predicate RecordMatches(text: Text, members: seq<Member>, query: IdQuery) {
    exists i :: 0 <= i < |members| && NamedBy(text, members[i], query)
  }

  predicate NamedBy(text: Text, m: Member, query: IdQuery) {
    var name := Offered(text, m, query.names);
    name.Some? && text.EqualFold(TrimSpace(name.value), query.commonName)
  }

  // ---------- the running maximum ----------

  // How strong an id is: a non-negative int64 by its value, then ids that are no
  // int64 at all, and negative numbers not at all.
  function Rank(id: string): int {
    match ParseInt(id)
    case Some(v) => if v >= 0 then v else -2
    case None => -1
  }

  function TopRank(ids: seq<string>): int {
    if ids == [] then -2
    else
      var rest := TopRank(ids[1..]);
      if Rank(ids[0]) > rest then Rank(ids[0]) else rest
  }

  lemma {:induction false} TopRankIsMaximum(ids: seq<string>)
    ensures forall id :: id in ids ==> Rank(id) <= TopRank(ids)
    ensures TopRank(ids) == -2 || exists id :: id in ids && Rank(id) == TopRank(ids)
  {
    if ids != [] {
      TopRankIsMaximum(ids[1..]);
      assert ids[0] in ids;
    }
  }

  function FirstWithRank(ids: seq<string>, rank: int): Option<string> {
    if ids == [] then None
    else if Rank(ids[0]) == rank then Some(ids[0])
    else FirstWithRank(ids[1..], rank)
  }

  // The earliest of the strongest ids.
  function Best(ids: seq<string>): Option<string> {
    if TopRank(ids) < -1 then None else FirstWithRank(ids, TopRank(ids))
  }

  lemma {:induction false} FirstWithRankConcat(a: seq<string>, b: seq<string>, rank: int)
    ensures FirstWithRank(a + b, rank) ==
      (if FirstWithRank(a, rank).Some? then FirstWithRank(a, rank) else FirstWithRank(b, rank))
  {
    if a == [] {
      assert a + b == b;
    } else {
      assert (a + b)[1..] == a[1..] + b;
      FirstWithRankConcat(a[1..], b, rank);
    }
  }

  lemma {:induction false} FirstWithRankFinds(ids: seq<string>, rank: int)
    ensures match FirstWithRank(ids, rank)
      case None => forall id :: id in ids ==> Rank(id) != rank
      case Some(b) => b in ids && Rank(b) == rank
  {
    if ids != [] {
      FirstWithRankFinds(ids[1..], rank);
    }
  }

  lemma TopRankByMembership(a: seq<string>, b: seq<string>)
    requires forall id :: id in a <==> id in b
    ensures TopRank(a) == TopRank(b)
  {
    TopRankIsMaximum(a);
    TopRankIsMaximum(b);
  }

  // One more id: it wins only when it is strictly stronger than every earlier one.
  lemma BestSnoc(ids: seq<string>, id: string)
    ensures Best(ids + [id]) ==
      (if Rank(id) >= -1 && Rank(id) > TopRank(ids) then Some(id) else Best(ids))
    ensures TopRank(ids + [id]) == if Rank(id) > TopRank(ids) then Rank(id) else TopRank(ids)
  {
    var all := ids + [id];
    assert all[|ids|] == id;
    TopRankIsMaximum(ids);
    TopRankIsMaximum(all);
    FirstWithRankConcat(ids, [id], TopRank(all));
    FirstWithRankFinds(ids, TopRank(all));
    FirstWithRankFinds(ids, TopRank(ids));
  }

  // ---------- the walk ----------

  // The ids an object offers, in the order its map is ranged over.
  function IdsIn(text: Text, ranged: seq<Member>, wanted: set<string>): seq<string> {
    if ranged == [] then []
    else
      var own := Offered(text, ranged[0], wanted);
      (if own.Some? then [own.value] else []) + IdsIn(text, ranged[1..], wanted)
  }

  // Every id offered by an object that names the common name, in visiting order.
  function VisitedIds(text: Text, places: seq<Place>, query: IdQuery, order: Ordering): seq<string> {
    if places == [] then []
    else
      (if RecordMatches(text, places[0].members, query)
       then IdsIn(text, order(query.ids, places[0].path, places[0].members), query.ids) else [])
      + VisitedIds(text, places[1..], query, order)
  }

  lemma {:induction false} VisitedIdsConcat(text: Text, a: seq<Place>, b: seq<Place>, query: IdQuery, order: Ordering)
    ensures VisitedIds(text, a + b, query, order) == VisitedIds(text, a, query, order) + VisitedIds(text, b, query, order)
  {
    if a == [] {
      assert a + b == b;
    } else {
      assert (a + b)[1..] == a[1..] + b;
      VisitedIdsConcat(text, a[1..], b, query, order);
    }
  }

  // findIDForCommonName.
  function FindID(text: Text, doc: Json, query: IdQuery, order: Ordering): Option<string> {
    if query.commonName == "" then None else Best(VisitedIds(text, Places(doc, []), query, order))
  }

  // best, bestValue and found after the given ids were seen.
  ghost predicate Describes(best: string, bestValue: int, found: bool, seen: seq<string>) {
    && found == (seen != [])
    && Best(seen) == (if best == "" then None else Some(best))
    && TopRank(seen) == (if best == "" then -2 else bestValue)
    && (best == "" ==> bestValue == -1)
  }

  lemma DescribesSnoc(best: string, bestValue: int, found: bool, seen: seq<string>, id: string)
    requires Describes(best, bestValue, found, seen) && id != ""
    ensures var numeric := ParseInt(id);
      if numeric.Some? then
        if numeric.value > bestValue then Describes(id, numeric.value, true, seen + [id])
        else Describes(best, bestValue, true, seen + [id])
      else if bestValue < 0 && best == "" then Describes(id, bestValue, true, seen + [id])
      else Describes(best, bestValue, true, seen + [id])
  {
    BestSnoc(seen, id);
    TopRankIsMaximum(seen);
  }

  lemma VisitNode(text: Text, node: Json, path: seq<nat>, query: IdQuery, order: Ordering, before: seq<string>)
    ensures before + VisitedIds(text, Places(node, path), query, order) ==
      (if node.Obj? && RecordMatches(text, node.members, query)
       then before + IdsIn(text, order(query.ids, path, node.members), query.ids) else before)
      + VisitedIds(text, PlacesAmong(node, Children(node), path), query, order)
  {
    var below := PlacesAmong(node, Children(node), path);
    if node.Obj? {
      var here := [Place(path, node.members)];
      VisitedIdsConcat(text, here, below, query, order);
      assert VisitedIds(text, here[1..], query, order) == [];
    } else {
      assert Places(node, path) == below;
    }
  }

  lemma VisitStep(text: Text, parent: Json, children: seq<Json>, i: nat, path: seq<nat>, query: IdQuery,
      order: Ordering, before: seq<string>)
    requires i < |children| && forall j :: 0 <= j < |children| ==> children[j] < parent
    ensures before + VisitedIds(text, PlacesAmong(parent, children[i..], path), query, order) ==
      before + VisitedIds(text, Places(children[i], path + [|children| - i]), query, order)
      + VisitedIds(text, PlacesAmong(parent, children[i + 1..], path), query, order)
  {
    assert children[i..][1..] == children[i + 1..];
    var first, later := Places(children[i], path + [|children| - i]), PlacesAmong(parent, children[i + 1..], path);
    assert PlacesAmong(parent, children[i..], path) == first + later;
    VisitedIdsConcat(text, first, later, query, order);
    Associate(before, VisitedIds(text, first, query, order), VisitedIds(text, later, query, order));
  }

  lemma IdsStep(text: Text, ranged: seq<Member>, wanted: set<string>, before: seq<string>)
    requires ranged != []
    ensures before + IdsIn(text, ranged, wanted) ==
      (var id := Offered(text, ranged[0], wanted); if id.Some? then before + [id.value] else before)
      + IdsIn(text, ranged[1..], wanted)
  {
    var own, rest := Offered(text, ranged[0], wanted), IdsIn(text, ranged[1..], wanted);
    if own.Some? {
      Associate(before, [own.value], rest);
    } else {
      assert [] + rest == rest;
    }
  }

  // The captured variables of findIDForCommonName and the closure that updates them.
  class IdSearch {
    const text: Text
    const query: IdQuery
    const order: Ordering
    var best: string
    var bestValue: int
    var found: bool
    ghost var seen: seq<string>

    ghost predicate Valid()
      reads this
    {
      Describes(best, bestValue, found, seen)
    }

    constructor (text: Text, query: IdQuery, order: Ordering)
      ensures Valid() && seen == []
      ensures this.text == text && this.query == query && this.order == order
    {
      this.text, this.query, this.order := text, query, order;
      best, bestValue, found, seen := "", -1, false, [];
    }

    method Consider(id: string)
      requires Valid() && id != ""
      modifies this
      ensures Valid() && seen == old(seen) + [id]
    {
      DescribesSnoc(best, bestValue, found, seen, id);
      found := true;
      var numeric := ParseInt(id);
      if numeric.Some? {
        if numeric.value > bestValue {
          bestValue, best := numeric.value, id;
        }
      } else if bestValue < 0 && best == "" {
        best := id;
      }
      seen := seen + [id];
    }

    method Walk(node: Json, path: seq<nat>)
      requires Valid()
      modifies this
      ensures Valid() && seen == old(seen) + VisitedIds(text, Places(node, path), query, order)
      decreases node
    {
      VisitNode(text, node, path, query, order, seen);
      if node.Obj? && RecordMatches(text, node.members, query) {
        ConsiderAll(order(query.ids, path, node.members));
      }
      WalkAmong(node, path);
    }

    method ConsiderAll(ranged: seq<Member>)
      requires Valid()
      modifies this
      ensures Valid() && seen == old(seen) + IdsIn(text, ranged, query.ids)
    {
      ghost var goal := seen + IdsIn(text, ranged, query.ids);
      for i := 0 to |ranged|
        invariant Valid()
        invariant seen + IdsIn(text, ranged[i..], query.ids) == goal
      {
        assert ranged[i..][1..] == ranged[i + 1..];
        IdsStep(text, ranged[i..], query.ids, seen);
        var id := Offered(text, ranged[i], query.ids);
        if id.Some? {
          Consider(id.value);
        }
      }
    }

    method WalkAmong(node: Json, path: seq<nat>)
      requires Valid()
      modifies this
      ensures Valid() && seen == old(seen) + VisitedIds(text, PlacesAmong(node, Children(node), path), query, order)
      decreases node, 0
    {
      var children := Children(node);
      assert children[|children|..] == [] && VisitedIds(text, PlacesAmong(node, [], path), query, order) == [];
      hide Describes, VisitedIds, Places, PlacesAmong;
      ghost var goal := old(seen) + VisitedIds(text, PlacesAmong(node, children, path), query, order);
      for i := 0 to |children|
        invariant Valid()
        invariant seen + VisitedIds(text, PlacesAmong(node, children[i..], path), query, order) == goal
      {
        VisitStep(text, node, children, i, path, query, order, seen);
        Walk(children[i], path + [|children| - i]);
      }
    }
  }

  method FindIDForCommonName(text: Text, doc: Json, commonName: string, idKeys: seq<string>,
      nameKeys: seq<string>, order: Ordering)
    returns (id: string, ok: bool)
    ensures var r := FindID(text, doc, IdQuery(WantedKeys(text, idKeys), WantedKeys(text, nameKeys), commonName), order);
      ok == r.Some? && (ok ==> id == r.value)
  {
    if commonName == "" {
      return "", false;
    }
    var query := IdQuery(WantedKeys(text, idKeys), WantedKeys(text, nameKeys), commonName);
    var search := new IdSearch(text, query, order);
    search.Walk(doc, []);
    assert search.seen == VisitedIds(text, Places(doc, []), query, order);
    return search.best, search.found && search.best != "";
  }

  // ---------- range order ----------

  // The object names the common name and carries the id.
  ghost predicate CarriesId(text: Text, members: seq<Member>, query: IdQuery, id: string) {
    RecordMatches(text, members, query) && exists m :: m in members && Offered(text, m, query.ids) == Some(id)
  }

  ghost predicate CarriedSomewhere(text: Text, places: seq<Place>, query: IdQuery, id: string) {
    exists i :: 0 <= i < |places| && CarriesId(text, places[i].members, query, id)
  }

  lemma {:induction false} IdsInMembers(text: Text, ranged: seq<Member>, wanted: set<string>, id: string)
    ensures id in IdsIn(text, ranged, wanted) <==> exists m :: m in ranged && Offered(text, m, wanted) == Some(id)
  {
    if ranged != [] {
      IdsInMembers(text, ranged[1..], wanted, id);
      assert ranged == [ranged[0]] + ranged[1..];
    }
  }

  lemma {:induction false} VisitedAreCarried(text: Text, places: seq<Place>, query: IdQuery, order: Order, id: string)
    ensures id in VisitedIds(text, places, query, order) <==> CarriedSomewhere(text, places, query, id)
  {
    if places != [] {
      var ms := places[0].members;
      var ranged := order(query.ids, places[0].path, ms);
      VisitedAreCarried(text, places[1..], query, order, id);
      IdsInMembers(text, ranged, query.ids, id);
      SameMembers(ranged, ms);
      assert forall i :: 0 <= i < |places[1..]| ==> places[1..][i] == places[i + 1];
      if CarriedSomewhere(text, places, query, id) {
        var i :| 0 <= i < |places| && CarriesId(text, places[i].members, query, id);
        assert i == 0 || places[1..][i - 1] == places[i];
      }
    }
  }

  // The strength of the strongest id of the document, which no order changes.
  function DocumentRank(text: Text, places: seq<Place>, query: IdQuery): int {
    TopRank(VisitedIds(text, places, query, SORTED))
  }

  lemma RankIgnoresOrder(text: Text, places: seq<Place>, query: IdQuery, order: Order)
    ensures TopRank(VisitedIds(text, places, query, order)) == DocumentRank(text, places, query)
  {
    var sorted: Order := SORTED;
    forall id ensures id in VisitedIds(text, places, query, order) <==> id in VisitedIds(text, places, query, sorted) {
      VisitedAreCarried(text, places, query, order, id);
      VisitedAreCarried(text, places, query, sorted, id);
    }
    TopRankByMembership(VisitedIds(text, places, query, order), VisitedIds(text, places, query, sorted));
  }

  // An id of the given strength in an object that names the common name.
  function IdOffer(text: Text, query: IdQuery, rank: int): Offer {
    (all: seq<Member>, m: Member) =>
      var id := Offered(text, m, query.ids);
      if RecordMatches(text, all, query) && id.Some? && Rank(id.value) == rank then id else None
  }

  lemma {:induction false} RangedIdsAreOffers(text: Text, all: seq<Member>, ranged: seq<Member>,
      query: IdQuery, rank: int)
    ensures FirstOffer(IdOffer(text, query, rank), all, ranged) ==
      (if RecordMatches(text, all, query) then FirstWithRank(IdsIn(text, ranged, query.ids), rank) else None)
  {
    if ranged != [] {
      RangedIdsAreOffers(text, all, ranged[1..], query, rank);
      var own, rest := Offered(text, ranged[0], query.ids), IdsIn(text, ranged[1..], query.ids);
      if own.Some? {
        FirstWithRankConcat([own.value], rest, rank);
        assert FirstWithRank([own.value], rank) == if Rank(own.value) == rank then own else None;
      } else {
        assert IdsIn(text, ranged, query.ids) == rest;
      }
    }
  }

  lemma {:induction false} VisitedIdsAreOffers(text: Text, places: seq<Place>, query: IdQuery, order: Ordering,
      rank: int)
    ensures FirstWithRank(VisitedIds(text, places, query, order), rank) ==
      FindAt(IdOffer(text, query, rank), places, query.ids, order)
  {
    if places != [] {
      var ms := places[0].members;
      var ranged := order(query.ids, places[0].path, ms);
      RangedIdsAreOffers(text, ms, ranged, query, rank);
      VisitedIdsAreOffers(text, places[1..], query, order, rank);
      FirstWithRankConcat(if RecordMatches(text, ms, query) then IdsIn(text, ranged, query.ids) else [],
        VisitedIds(text, places[1..], query, order), rank);
    }
  }

  // What findIDForCommonName may answer: the strongest ids of the first matching
  // object that carries one of them.
  function IdOutcomes(text: Text, doc: Json, query: IdQuery): set<string> {
    var rank := DocumentRank(text, Places(doc, []), query);
    if query.commonName == "" || rank < -1 then {} else Outcomes(IdOffer(text, query, rank), Places(doc, []))
  }

  lemma FindIDIsFindAt(text: Text, doc: Json, query: IdQuery, order: Order)
    ensures var rank := DocumentRank(text, Places(doc, []), query);
      FindID(text, doc, query, order) ==
      if query.commonName == "" || rank < -1 then None
      else FindAt(IdOffer(text, query, rank), Places(doc, []), query.ids, order)
  {
    RankIgnoresOrder(text, Places(doc, []), query, order);
    VisitedIdsAreOffers(text, Places(doc, []), query, order, DocumentRank(text, Places(doc, []), query));
  }

  ghost predicate FindIDIsOrderIndependent(text: Text, doc: Json, query: IdQuery) {
    forall o1: Order, o2: Order :: FindID(text, doc, query, o1) == FindID(text, doc, query, o2)
  }

  // The chosen id is the same for every range order exactly when the first matching
  // object that carries a strongest id carries it in one spelling.
  lemma FindIDOrderIndependence(text: Text, doc: Json, query: IdQuery)
    ensures FindIDIsOrderIndependent(text, doc, query) <==> AtMostOne(IdOutcomes(text, doc, query))
  {
    var places := Places(doc, []);
    var rank := DocumentRank(text, places, query);
    var offer := IdOffer(text, query, rank);
    IndependentIffOneOutcome(offer, places, query.ids);
    forall o: Order ensures FindID(text, doc, query, o) ==
        if query.commonName == "" || rank < -1 then None else FindAt(offer, places, query.ids, o) {
      FindIDIsFindAt(text, doc, query, o);
    }
    if FindIDIsOrderIndependent(text, doc, query) && query.commonName != "" && rank >= -1 {
      forall o1: Order, o2: Order ensures FindAt(offer, places, query.ids, o1) == FindAt(offer, places, query.ids, o2) {
        assert FindID(text, doc, query, o1) == FindID(text, doc, query, o2);
      }
    }
  }

  // In particular, several ids per object do no harm when each is written canonically.
  lemma CanonicalIdsAreOrderIndependent(text: Text, doc: Json, query: IdQuery)
    requires forall id :: CarriedSomewhere(text, Places(doc, []), query, id) ==> Canonical(id)
    ensures FindIDIsOrderIndependent(text, doc, query)
  {
    FindIDOrderIndependence(text, doc, query);
    var places := Places(doc, []);
    var rank := DocumentRank(text, places, query);
    var offer := IdOffer(text, query, rank);
    OutcomesAreSomewhere(offer, places);
    forall a | a in IdOutcomes(text, doc, query) ensures Canonical(a) && Rank(a) == rank {
      var i :| 0 <= i < |places| && a in Hits(offer, places[i].members);
      assert CarriesId(text, places[i].members, query, a);
      assert CarriedSomewhere(text, places, query, a);
    }
  }

  // ---------- which request to sign ----------

  const CSR_ID_KEYS: seq<string> := ["CSR_ID", "csrId", "csrID", "csrid", "certificateRequestId", "id"]
  const COMMON_NAME_KEYS: seq<string> := ["commonName", "common_name", "CNAME", "cn", "subjectCommonName"]

  function CsrQuery(text: Text, commonName: string): IdQuery {
    IdQuery(WantedKeys(text, CSR_ID_KEYS), WantedKeys(text, COMMON_NAME_KEYS), commonName)
  }

  // The choice of FindCSRID: an id next to the common name, or the only id of a
  // response that holds no name at all.
  function SelectCSRID(text: Text, doc: Json, commonName: string, order: Ordering): Option<string> {
    var query := CsrQuery(text, commonName);
    var named := FindID(text, doc, query, order);
    if named.Some? then named
    else
      var ids := CollectFor(text, doc, query.ids);
      if |ids| == 1 && CollectFor(text, doc, query.names) == [] then Some(ids[0]) else None
  }

  // The id belongs to an object that itself names the common name, and no object that
  // does carries a stronger one.
  ghost predicate StrongestNamed(text: Text, doc: Json, query: IdQuery, id: string) {
    && CarriedSomewhere(text, Places(doc, []), query, id)
    && Rank(id) >= -1
    && forall other :: CarriedSomewhere(text, Places(doc, []), query, other) ==> Rank(other) <= Rank(id)
  }

  lemma FindIDIsStrongestNamed(text: Text, doc: Json, query: IdQuery, order: Order)
    ensures match FindID(text, doc, query, order)
      case Some(id) => StrongestNamed(text, doc, query, id)
      case None => query.commonName == "" || forall id :: CarriedSomewhere(text, Places(doc, []), query, id) ==> Rank(id) == -2
  {
    var places := Places(doc, []);
    var ids := VisitedIds(text, places, query, order);
    TopRankIsMaximum(ids);
    FirstWithRankFinds(ids, TopRank(ids));
    forall id ensures id in ids <==> CarriedSomewhere(text, places, query, id) {
      VisitedAreCarried(text, places, query, order, id);
    }
  }

  // ---------- the choice in plain terms ----------

  // One object holds the id under an id key and, under a name key, the common name.
  ghost predicate Beside(text: Text, doc: Json, ids: set<string>, names: set<string>, commonName: string,
      path: seq<nat>, id: string) {
    exists a: nat, b: nat ::
      && ScalarUnder(text, doc, ids, path + [a]) == Some(id)
      && ScalarUnder(text, doc, names, path + [b]).Some?
      && text.EqualFold(TrimSpace(ScalarUnder(text, doc, names, path + [b]).value), commonName)
  }

  ghost predicate BesideSomewhere(text: Text, doc: Json, ids: set<string>, names: set<string>, commonName: string,
      id: string) {
    exists path :: Beside(text, doc, ids, names, commonName, path, id)
  }

  lemma CarriedIsBeside(text: Text, doc: Json, query: IdQuery, path: seq<nat>, id: string)
    ensures Beside(text, doc, query.ids, query.names, query.commonName, path, id) <==>
      ObjectAt(doc, path).Some? && CarriesId(text, ObjectAt(doc, path).value, query, id)
  {
    MemberScalars(text, doc, query.ids, path);
    MemberScalars(text, doc, query.names, path);
    hide ScalarUnder, ObjectAt, Offered;
    if ObjectAt(doc, path).Some? && CarriesId(text, ObjectAt(doc, path).value, query, id) {
      var members := ObjectAt(doc, path).value;
      var b :| 0 <= b < |members| && NamedBy(text, members[b], query);
      var a :| 0 <= a < |members| && Offered(text, members[a], query.ids) == Some(id);
      assert ScalarUnder(text, doc, query.ids, path + [a]) == Some(id);
      assert ScalarUnder(text, doc, query.names, path + [b]) == Offered(text, members[b], query.names);
    }
    if Beside(text, doc, query.ids, query.names, query.commonName, path, id) {
      BesideIsCarried(text, doc, query, path, id);
    }
  }

  lemma BesideIsCarried(text: Text, doc: Json, query: IdQuery, path: seq<nat>, id: string)
    requires Beside(text, doc, query.ids, query.names, query.commonName, path, id)
    ensures ObjectAt(doc, path).Some? && CarriesId(text, ObjectAt(doc, path).value, query, id)
  {
    MemberScalars(text, doc, query.ids, path);
    MemberScalars(text, doc, query.names, path);
    hide ScalarUnder, ObjectAt, Offered;
    var a: nat, b: nat :|
      && ScalarUnder(text, doc, query.ids, path + [a]) == Some(id)
      && ScalarUnder(text, doc, query.names, path + [b]).Some?
      && text.EqualFold(TrimSpace(ScalarUnder(text, doc, query.names, path + [b]).value), query.commonName);
    var members := ObjectAt(doc, path).value;
    assert members[a] in members && NamedBy(text, members[b], query);
  }

  lemma CarriedSomewhereIsBeside(text: Text, doc: Json, query: IdQuery, id: string)
    ensures CarriedSomewhere(text, Places(doc, []), query, id) <==>
      BesideSomewhere(text, doc, query.ids, query.names, query.commonName, id)
  {
    var places := Places(doc, []);
    var paths := PlacesByPosition(doc, []);
    hide Beside, CarriesId, Places, ObjectAt;
    if CarriedSomewhere(text, places, query, id) {
      var i :| 0 <= i < |places| && CarriesId(text, places[i].members, query, id);
      assert ObjectAt(doc, paths[i]) == Some(MembersOf(places)[i]);
      CarriedIsBeside(text, doc, query, paths[i], id);
    }
    if BesideSomewhere(text, doc, query.ids, query.names, query.commonName, id) {
      var path :| Beside(text, doc, query.ids, query.names, query.commonName, path, id);
      CarriedIsBeside(text, doc, query, path, id);
      assert path in paths;
      var i :| 0 <= i < |paths| && paths[i] == path;
      assert MembersOf(places)[i] == ObjectAt(doc, path).value;
    }
  }

  predicate NonNegative(id: string) {
    ParseInt(id).Some? && ParseInt(id).value >= 0
  }

  // The id chosen sits next to the common name in one object, and no object with that name
  // holds a usable id that is passed over: neither a larger non-negative int64 than the one
  // chosen nor, when nothing is chosen, any id that is not a negative number.
  lemma ChosenIdInPlainTerms(text: Text, doc: Json, commonName: string, ids: set<string>, names: set<string>, order: Order)
    ensures match FindID(text, doc, IdQuery(ids, names, commonName), order)
      case Some(id) =>
        && commonName != "" && BesideSomewhere(text, doc, ids, names, commonName, id)
        && (ParseInt(id).Some? ==> ParseInt(id).value >= 0)
        && (forall other :: BesideSomewhere(text, doc, ids, names, commonName, other) && NonNegative(other) ==>
             NonNegative(id) && ParseInt(id).value >= ParseInt(other).value)
      case None =>
        commonName == "" || forall other :: BesideSomewhere(text, doc, ids, names, commonName, other) ==>
          ParseInt(other).Some? && ParseInt(other).value < 0
  {
    var query := IdQuery(ids, names, commonName);
    FindIDIsStrongestNamed(text, doc, query, order);
    assert FindID(text, doc, query, order).Some? ==> commonName != "";
    hide CarriedSomewhere, BesideSomewhere, FindID, ParseInt;
    forall id ensures CarriedSomewhere(text, Places(doc, []), query, id) <==>
      BesideSomewhere(text, doc, ids, names, commonName, id)
    {
      CarriedSomewhereIsBeside(text, doc, query, id);
    }
  }

  // No object names the common name.
  ghost predicate NamedNowhere(text: Text, doc: Json, names: set<string>, commonName: string) {
    forall path :: var name := ScalarUnder(text, doc, names, path);
      name.Some? ==> !text.EqualFold(TrimSpace(name.value), commonName)
  }

  lemma SingleCollectedIsOnly(text: Text, doc: Json, wanted: set<string>)
    ensures |CollectFor(text, doc, wanted)| == 1 ==> OnlyScalar(text, doc, wanted, CollectFor(text, doc, wanted)[0])
    ensures CollectFor(text, doc, wanted) == [] <==> NoScalar(text, doc, wanted)
  {
    var read, values := path => ScalarUnder(text, doc, wanted, path), CollectFor(text, doc, wanted);
    var paths := CollectForByPath(text, doc, wanted);
    hide CollectFor, ScalarUnder, Walks;
    ShortWalks(read, values, paths);
    assert forall path :: read(path) == ScalarUnder(text, doc, wanted, path);
  }

  lemma NamedNowhereHasNone(text: Text, doc: Json, ids: set<string>, names: set<string>, commonName: string, id: string)
    requires NamedNowhere(text, doc, names, commonName)
    ensures !BesideSomewhere(text, doc, ids, names, commonName, id)
  {
    forall path ensures !Beside(text, doc, ids, names, commonName, path, id) {
      hide ScalarUnder;
    }
  }

  // What FindCSRID answers is an id beside the common name or the only id of a document
  // without any name. A document whose names all differ from the common name is refused.
  lemma SelectedIdInPlainTerms(text: Text, doc: Json, commonName: string, order: Order)
    ensures var ids := WantedKeys(text, ["CSR_ID", "csrId", "csrID", "csrid", "certificateRequestId", "id"]);
      var names := WantedKeys(text, ["commonName", "common_name", "CNAME", "cn", "subjectCommonName"]);
      var r := SelectCSRID(text, doc, commonName, order);
      && (r.Some? ==>
           || BesideSomewhere(text, doc, ids, names, commonName, r.value)
           || (OnlyScalar(text, doc, ids, r.value) && NoScalar(text, doc, names)))
      && (NamedNowhere(text, doc, names, commonName) && !NoScalar(text, doc, names) ==> r == None)
  {
    var ids := WantedKeys(text, ["CSR_ID", "csrId", "csrID", "csrid", "certificateRequestId", "id"]);
    var names := WantedKeys(text, ["commonName", "common_name", "CNAME", "cn", "subjectCommonName"]);
    assert CsrQuery(text, commonName) == IdQuery(ids, names, commonName);
    hide FindID, CollectFor, ScalarUnder, BesideSomewhere, OnlyScalar, NoScalar;
    ChosenIdInPlainTerms(text, doc, commonName, ids, names, order);
    SingleCollectedIsOnly(text, doc, ids);
    SingleCollectedIsOnly(text, doc, names);
    var r := FindID(text, doc, IdQuery(ids, names, commonName), order);
    if NamedNowhere(text, doc, names, commonName) && r.Some? {
      NamedNowhereHasNone(text, doc, ids, names, commonName, r.value);
    }
  }

  // No position under the keys holds a scalar.
  ghost predicate NoScalar(text: Text, doc: Json, wanted: set<string>) {
    forall path :: ScalarUnder(text, doc, wanted, path) == None
  }

  // One position under the keys holds a scalar, and it is this one.
  ghost predicate OnlyScalar(text: Text, doc: Json, wanted: set<string>, v: string) {
    exists path :: ScalarUnder(text, doc, wanted, path) == Some(v)
      && forall other :: ScalarUnder(text, doc, wanted, other).Some? ==> other == path
  }

  // No id of a foreign request is ever chosen.
  lemma NeverAForeignRequest(text: Text, doc: Json, commonName: string, order: Order)
    ensures var query, r := CsrQuery(text, commonName), SelectCSRID(text, doc, commonName, order);
      r.Some? ==>
        || StrongestNamed(text, doc, query, r.value)
        || (CollectFor(text, doc, query.ids) == [r.value] && CollectFor(text, doc, query.names) == [])
    ensures var query, r := CsrQuery(text, commonName), SelectCSRID(text, doc, commonName, order);
      r.None? ==>
        && (commonName == "" || forall id :: CarriedSomewhere(text, Places(doc, []), query, id) ==> Rank(id) == -2)
        && (|CollectFor(text, doc, query.ids)| != 1 || CollectFor(text, doc, query.names) != [])
  {
    FindIDIsStrongestNamed(text, doc, CsrQuery(text, commonName), order);
  }

  // A response that names requests, but none by this common name, is refused.
  lemma OnlyForeignNamesAreRefused(text: Text, doc: Json, commonName: string, order: Order)
    requires CollectFor(text, doc, CsrQuery(text, commonName).names) != []
    requires forall i :: 0 <= i < |Places(doc, [])| ==> !RecordMatches(text, Places(doc, [])[i].members, CsrQuery(text, commonName))
    ensures SelectCSRID(text, doc, commonName, order) == None
  {
    FindIDIsStrongestNamed(text, doc, CsrQuery(text, commonName), order);
  }

  // The chosen id is never empty.
  lemma SelectedIdIsNotEmpty(text: Text, doc: Json, commonName: string, order: Order)
    ensures SelectCSRID(text, doc, commonName, order) != Some("")
  {
    var query := CsrQuery(text, commonName);
    NeverAForeignRequest(text, doc, commonName, order);
    if SelectCSRID(text, doc, commonName, order) == Some("") {
      CollectsWhatIsOffered(text, doc, query.ids, [], "");
      assert false;
    }
  }
}
