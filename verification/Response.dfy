// internal/kmp/response.go: a response is searched by field name, wherever the field
// sits.
module Response {
  import opened Basics
  import opened Text
  import opened Documents

  // ---------- findString ----------

  // A scalar stored under a wanted key.
  function Offered(text: Text, m: Member, wanted: set<string>): (r: Option<string>)
    ensures r.Some? ==> r.value != "" && !IsSpace(r.value[0])
  {
    if NormalizeKey(text, m.key) in wanted then ScalarString(m.value) else None
  }

  function ScalarOffer(text: Text, wanted: set<string>): Offer {
    (all: seq<Member>, m: Member) => Offered(text, m, wanted)
  }

  // findScalar: a match at an object's own level, in whatever order the map is ranged
  // over, before anything nested in it.
  function FindScalar(text: Text, node: Json, wanted: set<string>, order: Ordering, path: seq<nat>): Option<string>
    decreases node
  {
    var own :=
      if node.Obj? then FirstOffer(ScalarOffer(text, wanted), node.members, order(wanted, path, node.members)) else None;
    if own.Some? then own else FindAmong(text, node, Children(node), wanted, order, path)
  }

  function FindAmong(text: Text, parent: Json, rest: seq<Json>, wanted: set<string>, order: Ordering,
      path: seq<nat>): Option<string>
    requires forall i :: 0 <= i < |rest| ==> rest[i] < parent
    decreases parent, |rest|
  {
    if rest == [] then None
    else
      var first := FindScalar(text, rest[0], wanted, order, path + [|rest|]);
      if first.Some? then first else FindAmong(text, parent, rest[1..], wanted, order, path)
  }

  function FindString(text: Text, doc: Json, keys: seq<string>, order: Ordering): Option<string> {
    FindScalar(text, doc, WantedKeys(text, keys), order, [])
  }

  lemma {:induction false} FindScalarIsFindAt(text: Text, node: Json, wanted: set<string>, order: Ordering,
      path: seq<nat>)
    ensures FindScalar(text, node, wanted, order, path) == FindAt(ScalarOffer(text, wanted), Places(node, path), wanted, order)
    decreases node
  {
    FindAmongIsFindAt(text, node, Children(node), wanted, order, path);
    if node.Obj? {
      var here := [Place(path, node.members)];
      FindAtConcat(ScalarOffer(text, wanted), here, PlacesAmong(node, Children(node), path), wanted, order);
    } else {
      assert [] + PlacesAmong(node, Children(node), path) == PlacesAmong(node, Children(node), path);
    }
  }

  lemma {:induction false} FindAmongIsFindAt(text: Text, parent: Json, rest: seq<Json>, wanted: set<string>,
      order: Ordering, path: seq<nat>)
    requires forall i :: 0 <= i < |rest| ==> rest[i] < parent
    ensures FindAmong(text, parent, rest, wanted, order, path) ==
      FindAt(ScalarOffer(text, wanted), PlacesAmong(parent, rest, path), wanted, order)
    decreases parent, |rest|
  {
    if rest != [] {
      FindScalarIsFindAt(text, rest[0], wanted, order, path + [|rest|]);
      FindAmongIsFindAt(text, parent, rest[1..], wanted, order, path);
      var first, later := Places(rest[0], path + [|rest|]), PlacesAmong(parent, rest[1..], path);
      FindAtConcat(ScalarOffer(text, wanted), first, later, wanted, order);
    }
  }

  ghost predicate FindIsOrderIndependent(text: Text, doc: Json, wanted: set<string>) {
    forall o1: Order, o2: Order :: FindScalar(text, doc, wanted, o1, []) == FindScalar(text, doc, wanted, o2, [])
  }

  // findString answers the same under every range order exactly when the first object
  // that offers a wanted scalar offers only one.
  lemma FindStringOrderIndependence(text: Text, doc: Json, wanted: set<string>)
    ensures FindIsOrderIndependent(text, doc, wanted) <==> AtMostOne(Outcomes(ScalarOffer(text, wanted), Places(doc, [])))
  {
    var offer, places := ScalarOffer(text, wanted), Places(doc, []);
    IndependentIffOneOutcome(offer, places, wanted);
    forall o: Order ensures FindScalar(text, doc, wanted, o, []) == FindAt(offer, places, wanted, o) {
      FindScalarIsFindAt(text, doc, wanted, o, []);
    }
    if FindIsOrderIndependent(text, doc, wanted) {
      forall o1: Order, o2: Order ensures FindAt(offer, places, wanted, o1) == FindAt(offer, places, wanted, o2) {
        assert FindScalar(text, doc, wanted, o1, []) == FindScalar(text, doc, wanted, o2, []);
      }
    }
  }

  // A match at an object's own level, wherever the object sits, beats anything nested
  // deeper in it.
  lemma OwnLevelWins(text: Text, members: seq<Member>, wanted: set<string>, order: Order, path: seq<nat>)
    requires Hits(ScalarOffer(text, wanted), members) != {}
    ensures var r := FindScalar(text, Obj(members), wanted, order, path);
      r.Some? && r.value in Hits(ScalarOffer(text, wanted), members)
  {
    RangingFindsAHit(ScalarOffer(text, wanted), members, order(wanted, path, members));
  }

  // ---------- collectStringsFor and collectStrings ----------

  // The scalars the members of an object offer, position by position with Children.
  function OwnScalars(text: Text, node: Json, wanted: set<string>): (r: seq<Option<string>>)
    ensures |r| == |Children(node)|
  {
    match node
    case Obj(members) => seq(|members|, i requires 0 <= i < |members| => Offered(text, members[i], wanted))
    case _ => seq(|Children(node)|, i => None)
  }

  // Every scalar under a wanted key: each member's own before what it contains.
  function CollectFor(text: Text, node: Json, wanted: set<string>): seq<string>
    decreases node
  {
    CollectAmong(text, node, Children(node), OwnScalars(text, node, wanted), wanted)
  }

  function CollectAmong(text: Text, parent: Json, rest: seq<Json>, own: seq<Option<string>>,
      wanted: set<string>): seq<string>
    requires |own| == |rest| && forall i :: 0 <= i < |rest| ==> rest[i] < parent
    decreases parent, |rest|
  {
    if rest == [] then []
    else
      (if own[0].Some? then [own[0].value] else []) + CollectFor(text, rest[0], wanted)
      + CollectAmong(text, parent, rest[1..], own[1..], wanted)
  }

  // Some object offers the value.
  ghost predicate Somewhere(offer: Offer, places: seq<Place>, v: string) {
    exists i :: 0 <= i < |places| && v in Hits(offer, places[i].members)
  }

  lemma SomewhereConcat(offer: Offer, a: seq<Place>, b: seq<Place>, v: string)
    ensures Somewhere(offer, a + b, v) <==> Somewhere(offer, a, v) || Somewhere(offer, b, v)
  {
    if Somewhere(offer, b, v) {
      var i :| 0 <= i < |b| && v in Hits(offer, b[i].members);
      assert (a + b)[|a| + i] == b[i];
    }
    if Somewhere(offer, a, v) {
      var i :| 0 <= i < |a| && v in Hits(offer, a[i].members);
      assert (a + b)[i] == a[i];
    }
  }

  lemma OwnScalarsAreHits(text: Text, members: seq<Member>, wanted: set<string>, v: string)
    ensures Some(v) in OwnScalars(text, Obj(members), wanted) <==> v in Hits(ScalarOffer(text, wanted), members)
  {
    var own := OwnScalars(text, Obj(members), wanted);
    if v in Hits(ScalarOffer(text, wanted), members) {
      var i :| 0 <= i < |members| && Offered(text, members[i], wanted) == Some(v);
      assert own[i] == Some(v);
    }
    if Some(v) in own {
      var i :| 0 <= i < |own| && own[i] == Some(v);
      assert members[i] in members;
    }
  }

  lemma InOneOfThree(a: seq<string>, b: seq<string>, c: seq<string>, v: string)
    ensures v in a + b + c <==> v in a || v in b || v in c
  {}

  lemma {:induction false} CollectsWhatIsOffered(text: Text, node: Json, wanted: set<string>, path: seq<nat>, v: string)
    ensures v in CollectFor(text, node, wanted) <==> Somewhere(ScalarOffer(text, wanted), Places(node, path), v)
    decreases node
  {
    var offer := ScalarOffer(text, wanted);
    CollectAmongWhatIsOffered(text, node, Children(node), OwnScalars(text, node, wanted), wanted, path, v);
    var below := PlacesAmong(node, Children(node), path);
    if node.Obj? {
      OwnScalarsAreHits(text, node.members, wanted, v);
      var here := [Place(path, node.members)];
      assert Somewhere(offer, here, v) <==> v in Hits(offer, here[0].members);
      SomewhereConcat(offer, here, below, v);
    } else {
      assert Places(node, path) == below;
    }
  }

  lemma {:induction false} CollectAmongWhatIsOffered(text: Text, parent: Json, rest: seq<Json>,
      own: seq<Option<string>>, wanted: set<string>, path: seq<nat>, v: string)
    requires |own| == |rest| && forall i :: 0 <= i < |rest| ==> rest[i] < parent
    ensures v in CollectAmong(text, parent, rest, own, wanted) <==>
      Some(v) in own || Somewhere(ScalarOffer(text, wanted), PlacesAmong(parent, rest, path), v)
    decreases parent, |rest|
  {
    if rest != [] {
      InOneOfThree(if own[0].Some? then [own[0].value] else [], CollectFor(text, rest[0], wanted),
        CollectAmong(text, parent, rest[1..], own[1..], wanted), v);
      CollectsWhatIsOffered(text, rest[0], wanted, path + [|rest|], v);
      CollectAmongWhatIsOffered(text, parent, rest[1..], own[1..], wanted, path, v);
      SomewhereConcat(ScalarOffer(text, wanted), Places(rest[0], path + [|rest|]), PlacesAmong(parent, rest[1..], path), v);
      assert own == [own[0]] + own[1..];
    }
  }

  lemma {:induction false} OutcomesAreSomewhere(offer: Offer, places: seq<Place>)
    ensures forall v :: v in Outcomes(offer, places) ==> Somewhere(offer, places, v)
    ensures Outcomes(offer, places) == {} ==> forall v :: !Somewhere(offer, places, v)
  {
    if places != [] {
      OutcomesAreSomewhere(offer, places[1..]);
      assert places == [places[0]] + places[1..];
      forall v ensures Somewhere(offer, places, v) <==> v in Hits(offer, places[0].members) || Somewhere(offer, places[1..], v) {
        SomewhereConcat(offer, [places[0]], places[1..], v);
        assert Somewhere(offer, [places[0]], v) <==> v in Hits(offer, [places[0]][0].members);
      }
    }
  }

  // findString and collectStringsFor agree, though they visit in different orders: one
  // finds a value exactly when the other collects any, and the found value is collected.
  lemma WalkersAgree(text: Text, doc: Json, wanted: set<string>, order: Order)
    ensures match FindScalar(text, doc, wanted, order, [])
      case None => CollectFor(text, doc, wanted) == []
      case Some(v) => v in CollectFor(text, doc, wanted)
  {
    var offer, places := ScalarOffer(text, wanted), Places(doc, []);
    FindScalarIsFindAt(text, doc, wanted, order, []);
    FindAtGivesAnOutcome(offer, places, wanted, order);
    OutcomesAreSomewhere(offer, places);
    var all := CollectFor(text, doc, wanted);
    if all != [] {
      CollectsWhatIsOffered(text, doc, wanted, [], all[0]);
    }
    var r := FindScalar(text, doc, wanted, order, []);
    if r.Some? {
      CollectsWhatIsOffered(text, doc, wanted, [], r.value);
    }
  }

  // ---------- the searches in plain terms ----------

  // The text of the scalar at a position, if that is a member of an object under one of
  // the keys.
  function ScalarUnder(text: Text, doc: Json, wanted: set<string>, path: seq<nat>): Option<string> {
    if path == [] then None
    else
      var parent, k := ValueAt(doc, path[..|path| - 1]), path[|path| - 1];
      if parent.Some? && parent.value.Obj? && k < |parent.value.members|
        && NormalizeKey(text, parent.value.members[k].key) in wanted then
        ScalarString(parent.value.members[k].value)
      else None
  }

  // How scalars are rendered; nothing else has a text.
  lemma ScalarsAreRendered(v: Json)
    ensures match v
      case Str(s) => ScalarString(v) == if AllSpace(s) then None else Some(TrimSpace(s))
      case Num(Whole(n)) => MIN_INT64 <= n <= MAX_INT64 ==> ScalarString(v).Some? && ParseInt(ScalarString(v).value) == Some(n)
      case Bool(b) => ScalarString(v) == Some(if b then "true" else "false")
      case Null => ScalarString(v) == None
      case Arr(_) => ScalarString(v) == None
      case Obj(_) => ScalarString(v) == None
      case _ => ScalarString(v).Some?
  {
    match v
    case Str(s) => TrimSpaceEmpty(s);
    case Num(Whole(n)) => if MIN_INT64 <= n <= MAX_INT64 { ParseFormat(n); }
    case _ =>
  }

  lemma ScalarUnderBelow(text: Text, doc: Json, wanted: set<string>, child: nat, path: seq<nat>)
    requires child < |Children(doc)| && path != []
    ensures ScalarUnder(text, doc, wanted, [child] + path) == ScalarUnder(text, Children(doc)[child], wanted, path)
  {
    var whole := [child] + path;
    assert whole[..|whole| - 1] == [child] + path[..|path| - 1];
    ValueBelow(doc, child, path[..|path| - 1]);
  }

  lemma ScalarUnderOwn(text: Text, doc: Json, wanted: set<string>, child: nat)
    requires child < |Children(doc)|
    ensures ScalarUnder(text, doc, wanted, [child]) == OwnScalars(text, doc, wanted)[child]
  {
    assert [child][..0] == [];
  }

  lemma ScalarUnderNeedsMember(text: Text, doc: Json, wanted: set<string>, path: seq<nat>)
    requires ScalarUnder(text, doc, wanted, path).Some?
    ensures path != [] && path[0] < |Children(doc)|
  {
    if |path| > 1 {
      ValueAtChild(doc, path[..|path| - 1]);
    }
  }

  // collectStringsFor collects the scalars at all positions under the keys, each once, in
  // the order of a depth-first walk.
  lemma {:induction false} CollectForByPath(text: Text, node: Json, wanted: set<string>) returns (paths: seq<seq<nat>>)
    ensures Walks(path => ScalarUnder(text, node, wanted, path), CollectFor(text, node, wanted), paths)
    decreases node
  {
    paths := CollectFrom(text, node, wanted, 0);
    assert Children(node)[0..] == Children(node);
    assert OwnScalars(text, node, wanted)[0..] == OwnScalars(text, node, wanted);
  }

  lemma {:induction false} CollectFrom(text: Text, node: Json, wanted: set<string>, from: nat)
      returns (paths: seq<seq<nat>>)
    requires from <= |Children(node)|
    ensures WalksFrom(path => ScalarUnder(text, node, wanted, path), from,
      CollectAmong(text, node, Children(node)[from..], OwnScalars(text, node, wanted)[from..], wanted), paths)
    decreases node, |Children(node)| - from
  {
    var cs, own := Children(node), OwnScalars(text, node, wanted);
    var read := path => ScalarUnder(text, node, wanted, path);
    if from == |cs| {
      paths := [];
      forall path | path != [] && path[0] >= from ensures read(path).None? {
        if read(path).Some? {
          ScalarUnderNeedsMember(text, node, wanted, path);
        }
      }
    } else {
      var first, at := CollectChild(text, node, wanted, from);
      var later := CollectFrom(text, node, wanted, from + 1);
      var rest := CollectAmong(text, node, cs[from + 1..], own[from + 1..], wanted);
      WalksJoin(read, from, first, at, rest, later);
      assert cs[from..][1..] == cs[from + 1..] && own[from..][1..] == own[from + 1..];
      paths := Below(from, at) + later;
    }
  }

  // The scalar a member is, before what it contains.
  lemma {:induction false} CollectChild(text: Text, node: Json, wanted: set<string>, child: nat)
      returns (values: seq<string>, paths: seq<seq<nat>>)
    requires child < |Children(node)|
    ensures var own := OwnScalars(text, node, wanted)[child];
      values == (if own.Some? then [own.value] else []) + CollectFor(text, Children(node)[child], wanted)
    ensures |paths| == |values| && InWalkOrder(paths)
    ensures forall i :: 0 <= i < |paths| ==> ScalarUnder(text, node, wanted, [child] + paths[i]) == Some(values[i])
    ensures forall path :: path in paths <==> ScalarUnder(text, node, wanted, [child] + path).Some?
    decreases node, 0
  {
    var own := OwnScalars(text, node, wanted)[child];
    var deeper := CollectForByPath(text, Children(node)[child], wanted);
    var here: seq<seq<nat>> := if own.Some? then [[]] else [];
    paths := here + deeper;
    values := (if own.Some? then [own.value] else []) + CollectFor(text, Children(node)[child], wanted);
    assert forall i :: 0 <= i < |deeper| ==> deeper[i] in deeper && deeper[i] != [];
    assert [child] + [] == [child];
    ScalarUnderOwn(text, node, wanted, child);
    forall path | path != []
      ensures ScalarUnder(text, node, wanted, [child] + path) == ScalarUnder(text, Children(node)[child], wanted, path)
    {
      ScalarUnderBelow(text, node, wanted, child, path);
    }
    forall path ensures path in paths <==> ScalarUnder(text, node, wanted, [child] + path).Some? {
      assert path in paths <==> path in here || path in deeper;
    }
  }

  // The object a member sits in.
  function Parent(path: seq<nat>): seq<nat>
    requires path != []
  {
    path[..|path| - 1]
  }

  lemma {:induction false} FirstHitsDecide(offer: Offer, places: seq<Place>) returns (i: nat)
    ensures i <= |places| && forall j :: 0 <= j < i ==> Hits(offer, places[j].members) == {}
    ensures if i < |places| then Outcomes(offer, places) == Hits(offer, places[i].members) != {}
      else Outcomes(offer, places) == {}
  {
    if places == [] || Hits(offer, places[0].members) != {} {
      i := 0;
    } else {
      i := FirstHitsDecide(offer, places[1..]);
      i := i + 1;
    }
  }

  // What an object, if one is there, offers as its n-th member.
  function OfferedAt(text: Text, doc: Json, wanted: set<string>, path: seq<nat>, k: nat): Option<string> {
    var members := ObjectAt(doc, path);
    if members.Some? && k < |members.value| then Offered(text, members.value[k], wanted) else None
  }

  lemma MemberScalars(text: Text, doc: Json, wanted: set<string>, path: seq<nat>)
    ensures forall k: nat :: ScalarUnder(text, doc, wanted, path + [k]) == OfferedAt(text, doc, wanted, path, k)
  {
    forall k: nat ensures ScalarUnder(text, doc, wanted, path + [k]) == OfferedAt(text, doc, wanted, path, k) {
      assert (path + [k])[..|path|] == path;
    }
  }

  lemma HitsAreScalars(text: Text, doc: Json, wanted: set<string>, path: seq<nat>, v: string)
    requires ObjectAt(doc, path).Some?
    ensures v in Hits(ScalarOffer(text, wanted), ObjectAt(doc, path).value) <==>
      exists k: nat :: ScalarUnder(text, doc, wanted, path + [k]) == Some(v)
  {
    var members := ObjectAt(doc, path).value;
    MemberScalars(text, doc, wanted, path);
    if v in Hits(ScalarOffer(text, wanted), members) {
      var k :| 0 <= k < |members| && Offered(text, members[k], wanted) == Some(v);
      assert ScalarUnder(text, doc, wanted, path + [k]) == Some(v);
    }
    if k: nat :| ScalarUnder(text, doc, wanted, path + [k]) == Some(v) {
      assert members[k] in members;
    }
  }

  lemma ScalarsAreHits(text: Text, doc: Json, wanted: set<string>, path: seq<nat>)
    requires ScalarUnder(text, doc, wanted, path).Some?
    ensures path != [] && ObjectAt(doc, Parent(path)).Some?
    ensures Hits(ScalarOffer(text, wanted), ObjectAt(doc, Parent(path)).value) != {}
  {
    var k := path[|path| - 1];
    assert path == Parent(path) + [k];
    HitsAreScalars(text, doc, wanted, Parent(path), ScalarUnder(text, doc, wanted, path).value);
  }

  // No object before the one of this member holds a scalar under the keys.
  ghost predicate InFirstObject(text: Text, doc: Json, wanted: set<string>, path: seq<nat>)
    requires path != []
  {
    forall other :: other != [] && ScalarUnder(text, doc, wanted, other).Some? ==>
      Parent(other) == Parent(path) || Before(Parent(path), Parent(other))
  }

  lemma ScalarsFollowFirstHits(text: Text, doc: Json, wanted: set<string>, paths: seq<seq<nat>>, i: nat, other: seq<nat>)
    requires Walks(path => ObjectAt(doc, path), MembersOf(Places(doc, [])), paths)
    requires i <= |paths|
    requires forall j :: 0 <= j < i ==> Hits(ScalarOffer(text, wanted), Places(doc, [])[j].members) == {}
    requires ScalarUnder(text, doc, wanted, other).Some?
    ensures other != [] && i < |paths| && (Parent(other) == paths[i] || Before(paths[i], Parent(other)))
  {
    ScalarsAreHits(text, doc, wanted, other);
    assert Parent(other) in paths;
    var j :| 0 <= j < |paths| && paths[j] == Parent(other);
    assert MembersOf(Places(doc, []))[j] == ObjectAt(doc, paths[j]).value;
  }

  // findString answers a scalar under one of the keys, of the first object in a depth-first
  // walk that has any; and nothing only when no object has one.
  lemma FindStringInPlainTerms(text: Text, doc: Json, keys: seq<string>, order: Order)
    ensures var wanted := WantedKeys(text, keys);
      match FindString(text, doc, keys, order)
      case None => forall path :: ScalarUnder(text, doc, wanted, path) == None
      case Some(v) =>
        exists path :: path != [] && ScalarUnder(text, doc, wanted, path) == Some(v) && InFirstObject(text, doc, wanted, path)
  {
    var wanted := WantedKeys(text, keys);
    var offer, places := ScalarOffer(text, wanted), Places(doc, []);
    var paths := PlacesByPosition(doc, []);
    var i := FirstHitsDecide(offer, places);
    FindScalarIsFindAt(text, doc, wanted, order, []);
    FindAtGivesAnOutcome(offer, places, wanted, order);
    hide ScalarUnder, FindScalar, FindAt, Places, Outcomes, Hits;
    forall other | ScalarUnder(text, doc, wanted, other).Some?
      ensures other != [] && i < |paths| && (Parent(other) == paths[i] || Before(paths[i], Parent(other)))
    {
      ScalarsFollowFirstHits(text, doc, wanted, paths, i, other);
    }
    if i < |places| {
      var v := FindString(text, doc, keys, order).value;
      assert ObjectAt(doc, paths[i]) == Some(MembersOf(places)[i]);
      HitsAreScalars(text, doc, wanted, paths[i], v);
      var k: nat :| ScalarUnder(text, doc, wanted, paths[i] + [k]) == Some(v);
      assert Parent(paths[i] + [k]) == paths[i];
      assert InFirstObject(text, doc, wanted, paths[i] + [k]);
    }
  }

  // Every string value, depth first.
  function AllStrings(node: Json): seq<string>
    decreases node
  {
    if node.Str? then [node.s] else AllStringsAmong(node, Children(node))
  }

  function AllStringsAmong(parent: Json, rest: seq<Json>): seq<string>
    requires forall i :: 0 <= i < |rest| ==> rest[i] < parent
    decreases parent, |rest|
  {
    if rest == [] then [] else AllStrings(rest[0]) + AllStringsAmong(parent, rest[1..])
  }

  function StringAt(node: Json, path: seq<nat>): Option<string> {
    var v := ValueAt(node, path);
    if v.Some? && v.value.Str? then Some(v.value.s) else None
  }

  // AllStrings holds the value at every position that is a string, each once, in the
  // order of a depth-first walk.
  lemma {:induction false} AllStringsByPath(node: Json) returns (paths: seq<seq<nat>>)
    ensures Walks(path => StringAt(node, path), AllStrings(node), paths)
    decreases node
  {
    if node.Str? {
      paths := [[]];
      forall path ensures path in paths <==> StringAt(node, path).Some? {
        assert path in paths <==> path == [];
      }
    } else {
      paths := AllStringsFrom(node, 0);
      assert Children(node)[0..] == Children(node);
    }
  }

  ghost predicate HoldsString(doc: Json, s: string) {
    exists path :: ValueAt(doc, path) == Some(Str(s))
  }

  // The strings collected are those the document holds, wherever they sit.
  lemma EveryStringIsCollected(doc: Json, s: string)
    ensures s in AllStrings(doc) <==> HoldsString(doc, s)
  {
    var paths := AllStringsByPath(doc);
    if HoldsString(doc, s) {
      var path :| ValueAt(doc, path) == Some(Str(s));
      assert StringAt(doc, path) == Some(s) && path in paths;
    }
    if s in AllStrings(doc) {
      var i :| 0 <= i < |paths| && AllStrings(doc)[i] == s;
      assert StringAt(doc, paths[i]) == Some(s);
    }
  }

  lemma {:induction false} AllStringsFrom(node: Json, from: nat) returns (paths: seq<seq<nat>>)
    requires from <= |Children(node)|
    ensures WalksFrom(path => StringAt(node, path), from, AllStringsAmong(node, Children(node)[from..]), paths)
    decreases node, |Children(node)| - from
  {
    var cs := Children(node);
    var read := path => StringAt(node, path);
    if from == |cs| {
      paths := [];
      forall path | path != [] && path[0] >= from ensures read(path).None? {
        ValueAtChild(node, path);
      }
    } else {
      var first := AllStringsByPath(cs[from]);
      var later := AllStringsFrom(node, from + 1);
      forall path ensures read([from] + path) == StringAt(cs[from], path) {
        ValueBelow(node, from, path);
      }
      WalksJoin(read, from, AllStrings(cs[from]), first, AllStringsAmong(node, cs[from + 1..]), later);
      assert cs[from..][1..] == cs[from + 1..];
      paths := Below(from, first) + later;
    }
  }

  lemma AllStringsStep(parent: Json, rest: seq<Json>, before: seq<string>)
    requires rest != [] && forall i :: 0 <= i < |rest| ==> rest[i] < parent
    ensures before + AllStringsAmong(parent, rest) == before + AllStrings(rest[0]) + AllStringsAmong(parent, rest[1..])
  {
    Associate(before, AllStrings(rest[0]), AllStringsAmong(parent, rest[1..]));
  }

  // The walk closures of collectStrings and collectStringsFor, which append to a
  // captured slice.
  class Collector {
    var out: seq<string>

    constructor ()
      ensures out == []
    {
      out := [];
    }

    method WalkStrings(node: Json)
      modifies this
      ensures out == old(out) + AllStrings(node)
      decreases node
    {
      if node.Str? {
        out := out + [node.s];
      } else {
        var children := Children(node);
        ghost var goal := out + AllStringsAmong(node, children);
        for i := 0 to |children|
          invariant out + AllStringsAmong(node, children[i..]) == goal
        {
          AllStringsStep(node, children[i..], out);
          assert children[i..][1..] == children[i + 1..];
          WalkStrings(children[i]);
        }
      }
    }

    method WalkFor(text: Text, node: Json, wanted: set<string>)
      modifies this
      ensures out == old(out) + CollectFor(text, node, wanted)
      decreases node
    {
      var children, own := Children(node), OwnScalars(text, node, wanted);
      ghost var goal := old(out) + CollectFor(text, node, wanted);
      for i := 0 to |children|
        invariant out + CollectAmong(text, node, children[i..], own[i..], wanted) == goal
      {
        CollectStep(text, node, children[i..], own[i..], wanted, out);
        assert children[i..][1..] == children[i + 1..] && own[i..][1..] == own[i + 1..];
        if own[i].Some? {
          out := out + [own[i].value];
        }
        WalkFor(text, children[i], wanted);
      }
    }
  }

  lemma CollectStep(text: Text, parent: Json, rest: seq<Json>, own: seq<Option<string>>, wanted: set<string>,
      before: seq<string>)
    requires 0 < |own| == |rest| && forall i :: 0 <= i < |rest| ==> rest[i] < parent
    ensures before + CollectAmong(text, parent, rest, own, wanted) ==
      (if own[0].Some? then before + [own[0].value] else before) + CollectFor(text, rest[0], wanted)
      + CollectAmong(text, parent, rest[1..], own[1..], wanted)
  {
    var here: seq<string> := if own[0].Some? then [own[0].value] else [];
    Regroup(before, here, CollectFor(text, rest[0], wanted), CollectAmong(text, parent, rest[1..], own[1..], wanted));
    assert before + [] == before;
  }

  // ---------- the reported outcome ----------

  // The field names and words by which a response tells how an operation went.
  datatype Vocabulary = Vocabulary(
    statusKeys: seq<string>, messageKeys: seq<string>, successWords: seq<string>, failureHints: seq<string>)

  const KMP_WORDS: Vocabulary := Vocabulary(
    ["status", "Status", "STATUS", "result"],
    ["message", "Message", "MESSAGE", "reason", "error", "errormessage", "error_message"],
    ["success", "successful", "ok", "true", "200"],
    ["failed", "failure", "error", "invalid", "not found", "denied", "unable to"])

  predicate HintsAtFailure(text: Text, words: Vocabulary, message: string) {
    exists hint :: hint in words.failureHints && Contains(text.ToLower(message), hint)
  }

  // succeeded: the status decides; without one, the words of the message do.
  predicate Succeeded(text: Text, words: Vocabulary, doc: Json, order: Ordering) {
    var status := FindString(text, doc, words.statusKeys, order);
    var word := TrimSpace(text.ToLower(if status.Some? then status.value else ""));
    if word == "" then
      var message := FindString(text, doc, words.messageKeys, order);
      message.None? || !HintsAtFailure(text, words, message.value)
    else word in words.successWords
  }

  function StatusOutcomes(text: Text, words: Vocabulary, doc: Json): set<string> {
    Outcomes(ScalarOffer(text, WantedKeys(text, words.statusKeys)), Places(doc, []))
  }

  function MessageOutcomes(text: Text, words: Vocabulary, doc: Json): set<string> {
    Outcomes(ScalarOffer(text, WantedKeys(text, words.messageKeys)), Places(doc, []))
  }

  predicate GoodStatus(text: Text, words: Vocabulary, status: string) {
    TrimSpace(text.ToLower(status)) in words.successWords
  }

  // The statuses, or without any the messages, that may be read are judged alike.
  ghost predicate JudgedAlike(text: Text, words: Vocabulary, doc: Json) {
    if StatusOutcomes(text, words, doc) != {} then
      forall a, b :: a in StatusOutcomes(text, words, doc) && b in StatusOutcomes(text, words, doc) ==>
        GoodStatus(text, words, a) == GoodStatus(text, words, b)
    else
      forall a, b :: a in MessageOutcomes(text, words, doc) && b in MessageOutcomes(text, words, doc) ==>
        HintsAtFailure(text, words, a) == HintsAtFailure(text, words, b)
  }

  ghost predicate SucceededIsOrderIndependent(text: Text, words: Vocabulary, doc: Json) {
    forall o1: Order, o2: Order :: Succeeded(text, words, doc, o1) == Succeeded(text, words, doc, o2)
  }

  lemma FindStringGivesAnOutcome(text: Text, doc: Json, keys: seq<string>, order: Order)
    ensures var outcomes := Outcomes(ScalarOffer(text, WantedKeys(text, keys)), Places(doc, []));
      match FindString(text, doc, keys, order)
      case None => outcomes == {}
      case Some(v) => v in outcomes
  {
    var wanted := WantedKeys(text, keys);
    var offer, places := ScalarOffer(text, wanted), Places(doc, []);
    FindScalarIsFindAt(text, doc, wanted, order, []);
    FindAtGivesAnOutcome(offer, places, wanted, order);
  }

  // Nothing found is blank.
  lemma FoundIsNotBlank(text: Text, doc: Json, keys: seq<string>, order: Order)
    ensures var r := FindString(text, doc, keys, order); r.Some? ==> r.value != "" && !IsSpace(r.value[0])
  {
    var wanted := WantedKeys(text, keys);
    var offer, places := ScalarOffer(text, wanted), Places(doc, []);
    FindStringGivesAnOutcome(text, doc, keys, order);
    var r := FindString(text, doc, keys, order);
    if r.Some? {
      OutcomesAreSomewhere(offer, places);
      var i :| 0 <= i < |places| && r.value in Hits(offer, places[i].members);
    }
  }

  // An order under which the search answers the given outcome.
  ghost function Reach(text: Text, doc: Json, keys: seq<string>, answer: string): (order: Order)
    requires answer in Outcomes(ScalarOffer(text, WantedKeys(text, keys)), Places(doc, []))
    ensures FindString(text, doc, keys, order) == Some(answer)
  {
    var wanted := WantedKeys(text, keys);
    var offer := ScalarOffer(text, wanted);
    EveryOutcomeIsReached(offer, Places(doc, []), wanted, answer);
    FindScalarIsFindAt(text, doc, wanted, Favour(offer, answer), []);
    Favour(offer, answer)
  }

  // The verdict in terms of what the two searches find.
  function Judge(text: Text, words: Vocabulary, status: Option<string>, message: Option<string>): bool {
    if status.Some? then GoodStatus(text, words, status.value)
    else message.None? || !HintsAtFailure(text, words, message.value)
  }

  lemma SucceededJudges(text: Text, words: Vocabulary, doc: Json, order: Order)
    requires text.Valid()
    ensures Succeeded(text, words, doc, order) ==
      Judge(text, words, FindString(text, doc, words.statusKeys, order), FindString(text, doc, words.messageKeys, order))
  {
    FoundIsNotBlank(text, doc, words.statusKeys, order);
    var status := FindString(text, doc, words.statusKeys, order);
    var s := if status.Some? then status.value else "";
    TrimSpaceEmpty(text.ToLower(s));
    if status.Some? {
      assert IsSpace(text.ToLower(s)[0]) == IsSpace(s[0]);
    }
  }

  lemma JudgedAlikeSuffices(text: Text, words: Vocabulary, doc: Json, o1: Order, o2: Order)
    requires text.Valid() && JudgedAlike(text, words, doc)
    ensures Succeeded(text, words, doc, o1) == Succeeded(text, words, doc, o2)
  {
    SucceededJudges(text, words, doc, o1);
    SucceededJudges(text, words, doc, o2);
    FindStringGivesAnOutcome(text, doc, words.statusKeys, o1);
    FindStringGivesAnOutcome(text, doc, words.statusKeys, o2);
    FindStringGivesAnOutcome(text, doc, words.messageKeys, o1);
    FindStringGivesAnOutcome(text, doc, words.messageKeys, o2);
    var s1, s2 := FindString(text, doc, words.statusKeys, o1), FindString(text, doc, words.statusKeys, o2);
    var m1, m2 := FindString(text, doc, words.messageKeys, o1), FindString(text, doc, words.messageKeys, o2);
    if s1.Some? {
      assert s1.value in StatusOutcomes(text, words, doc) && s2.value in StatusOutcomes(text, words, doc);
    } else if m1.Some? {
      assert m1.value in MessageOutcomes(text, words, doc) && m2.value in MessageOutcomes(text, words, doc);
    }
  }

  lemma StatusesAreJudgedAlike(text: Text, words: Vocabulary, doc: Json, a: string, b: string)
    requires text.Valid() && SucceededIsOrderIndependent(text, words, doc)
    requires a in StatusOutcomes(text, words, doc) && b in StatusOutcomes(text, words, doc)
    ensures GoodStatus(text, words, a) == GoodStatus(text, words, b)
  {
    var oa, ob := Reach(text, doc, words.statusKeys, a), Reach(text, doc, words.statusKeys, b);
    SucceededJudges(text, words, doc, oa);
    SucceededJudges(text, words, doc, ob);
    assert Succeeded(text, words, doc, oa) == Succeeded(text, words, doc, ob);
  }

  lemma MessagesAreJudgedAlike(text: Text, words: Vocabulary, doc: Json, a: string, b: string)
    requires text.Valid() && SucceededIsOrderIndependent(text, words, doc) && StatusOutcomes(text, words, doc) == {}
    requires a in MessageOutcomes(text, words, doc) && b in MessageOutcomes(text, words, doc)
    ensures HintsAtFailure(text, words, a) == HintsAtFailure(text, words, b)
  {
    var oa, ob := Reach(text, doc, words.messageKeys, a), Reach(text, doc, words.messageKeys, b);
    SucceededJudges(text, words, doc, oa);
    SucceededJudges(text, words, doc, ob);
    FindStringGivesAnOutcome(text, doc, words.statusKeys, oa);
    FindStringGivesAnOutcome(text, doc, words.statusKeys, ob);
    assert Succeeded(text, words, doc, oa) == Succeeded(text, words, doc, ob);
  }

  // Whether an operation succeeded is the same for every range order exactly when all
  // the statuses, or messages, that might be read are judged alike.
  lemma SucceededOrderIndependence(text: Text, words: Vocabulary, doc: Json)
    requires text.Valid()
    ensures SucceededIsOrderIndependent(text, words, doc) <==> JudgedAlike(text, words, doc)
  {
    if JudgedAlike(text, words, doc) {
      forall o1: Order, o2: Order ensures Succeeded(text, words, doc, o1) == Succeeded(text, words, doc, o2) {
        JudgedAlikeSuffices(text, words, doc, o1, o2);
      }
    }
    if SucceededIsOrderIndependent(text, words, doc) {
      forall a, b | a in StatusOutcomes(text, words, doc) && b in StatusOutcomes(text, words, doc)
        ensures GoodStatus(text, words, a) == GoodStatus(text, words, b) {
        StatusesAreJudgedAlike(text, words, doc, a, b);
      }
      if StatusOutcomes(text, words, doc) == {} {
        forall a, b | a in MessageOutcomes(text, words, doc) && b in MessageOutcomes(text, words, doc)
          ensures HintsAtFailure(text, words, a) == HintsAtFailure(text, words, b) {
          MessagesAreJudgedAlike(text, words, doc, a, b);
        }
      }
    }
  }

  lemma SuccessIsGoodAndXIsNot()
    ensures GoodStatus(ASCII, KMP_WORDS, "Success") && !GoodStatus(ASCII, KMP_WORDS, "x")
    ensures "status" in KMP_WORDS.statusKeys && "result" in KMP_WORDS.statusKeys
  {
    assert ASCII.ToLower("Success") == "success";
    assert ASCII.ToLower("x") == "x";
    TrimSpaceTrims("success");
    TrimSpaceTrims("x");
    assert KMP_WORDS.successWords[0] == "success";
    assert forall i :: 0 <= i < |KMP_WORDS.successWords| ==> |KMP_WORDS.successWords[i]| > 1;
    assert KMP_WORDS.statusKeys[0] == "status" && KMP_WORDS.statusKeys[3] == "result";
  }

  // Two scalars under status keys of one object are both outcomes.
  lemma BothStatusesAreOutcomes(text: Text, words: Vocabulary, k1: string, v1: string, k2: string, v2: string)
    requires k1 in words.statusKeys && k2 in words.statusKeys
    requires v1 != "" && Trimmed(v1) && v2 != "" && Trimmed(v2)
    ensures var doc := Obj([Member(k1, Str(v1)), Member(k2, Str(v2))]);
      v1 in StatusOutcomes(text, words, doc) && v2 in StatusOutcomes(text, words, doc)
  {
    var members := [Member(k1, Str(v1)), Member(k2, Str(v2))];
    var offer := ScalarOffer(text, WantedKeys(text, words.statusKeys));
    TrimSpaceTrims(v1);
    TrimSpaceTrims(v2);
    assert members[0] in members && members[1] in members;
    assert v1 in Hits(offer, members) && v2 in Hits(offer, members);
    assert Places(Obj(members), [])[0] == Place([], members);
  }

  lemma UnlikeStatusesAreAmbiguous(text: Text, words: Vocabulary, doc: Json, good: string, bad: string)
    requires text.Valid()
    requires good in StatusOutcomes(text, words, doc) && bad in StatusOutcomes(text, words, doc)
    requires GoodStatus(text, words, good) && !GoodStatus(text, words, bad)
    ensures !SucceededIsOrderIndependent(text, words, doc)
    ensures !FindIsOrderIndependent(text, doc, WantedKeys(text, words.statusKeys))
  {
    FindStringOrderIndependence(text, doc, WantedKeys(text, words.statusKeys));
    SucceededOrderIndependence(text, words, doc);
  }

  // One object with two status fields is enough for the verdict to depend on the order,
  // as {"result": "x", "status": "Success"} shows.
  lemma TwoStatusFieldsAreAmbiguous(doc: Json)
    requires doc == Obj([Member("result", Str("x")), Member("status", Str("Success"))])
    ensures !SucceededIsOrderIndependent(ASCII, KMP_WORDS, doc)
    ensures !FindIsOrderIndependent(ASCII, doc, WantedKeys(ASCII, KMP_WORDS.statusKeys))
  {
    SuccessIsGoodAndXIsNot();
    BothStatusesAreOutcomes(ASCII, KMP_WORDS, "result", "x", "status", "Success");
    AsciiIsValid();
    UnlikeStatusesAreAmbiguous(ASCII, KMP_WORDS, doc, "Success", "x");
  }
}
