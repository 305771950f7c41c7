// Decoded JSON documents and how a search walks them (internal/kmp/response.go). Objects
// are key-sorted member lists, so sortedKeys is the list itself; a range over the Go map
// is a permutation of that list, chosen anew at every visit.
module Documents {
  import opened Basics
  import opened Text

  // A JSON number as it prints: whole numbers, and decimal fractions.
  datatype Number = Whole(n: int) | Fraction(negative: bool, whole: nat, zeros: nat, decimals: nat)

  datatype Json =
    | Null
    | Bool(b: bool)
    | Num(number: Number)
    | Str(s: string)
    | Arr(items: seq<Json>)
    | Obj(members: seq<Member>)

  datatype Member = Member(key: string, value: Json)

  // json.Unmarshal; an empty body is no JSON.
  type Decoder = d: string -> Option<Json> | d("").None? witness (s: string) => None

  // How one walk ranges over maps. The choice may depend on what is searched for and
  // on where in the tree the map sits, so equal maps need not be ranged over alike.
  type Ordering = (set<string>, seq<nat>, seq<Member>) -> seq<Member>

  ghost predicate Permutes(order: Ordering) {
    forall q, p, ms :: multiset(order(q, p, ms)) == multiset(ms)
  }

  const SORTED: Ordering := (q: set<string>, p: seq<nat>, ms: seq<Member>) => ms

  type Order = o: Ordering | Permutes(o) ghost witness SORTED

  // ---------- scalars and keys ----------

  // strconv.FormatInt, or FormatFloat with as many decimals as needed.
  function NumberText(n: Number): (s: string)
    ensures s != "" && !IsSpace(s[0])
  {
    match n
    case Whole(n) => FormatInt(n)
    case Fraction(negative, whole, zeros, decimals) =>
      (if negative then "-" else "") + Digits(whole) + "." + seq(zeros, i => '0') + Digits(decimals)
  }

  // Renders JSON scalars as strings; blank strings do not count.
  function ScalarString(v: Json): (r: Option<string>)
    ensures r.Some? ==> r.value != "" && !IsSpace(r.value[0])
  {
    match v
    case Str(s) =>
      TrimSpaceTrims(s);
      var t := TrimSpace(s);
      if t == "" then None else Some(t)
    case Num(n) => Some(NumberText(n))
    case Bool(b) => Some(if b then "true" else "false")
    case _ => None
  }

  predicate Separator(c: char) {
    c == '_' || c == '-' || c == ' ' || c == '.'
  }

  function WithoutSeparators(s: string): string {
    if s == "" then "" else (if Separator(s[0]) then "" else [s[0]]) + WithoutSeparators(s[1..])
  }

  function NormalizeKey(text: Text, key: string): string {
    WithoutSeparators(text.ToLower(key))
  }

  // normalizeKey, which fills a buffer rune by rune.
  method NormalizedKey(text: Text, key: string) returns (buf: string)
    ensures buf == NormalizeKey(text, key)
  {
    var lowered := text.ToLower(key);
    buf := "";
    for i := 0 to |lowered|
      invariant buf == WithoutSeparators(lowered[..i])
    {
      WithoutSeparatorsSnoc(lowered[..i], lowered[i]);
      assert lowered[..i + 1] == lowered[..i] + [lowered[i]];
      if Separator(lowered[i]) {
        continue;
      }
      buf := buf + [lowered[i]];
    }
    assert lowered[..|lowered|] == lowered;
  }

  lemma {:induction false} WithoutSeparatorsSnoc(s: string, c: char)
    ensures WithoutSeparators(s + [c]) == WithoutSeparators(s) + (if Separator(c) then "" else [c])
  {
    if s == "" {
      assert "" + [c] == [c] && [c][1..] == "";
    } else {
      var head, tail := if Separator(s[0]) then "" else [s[0]], if Separator(c) then "" else [c];
      assert (s + [c])[1..] == s[1..] + [c];
      WithoutSeparatorsSnoc(s[1..], c);
      assert WithoutSeparators(s + [c]) == head + (WithoutSeparators(s[1..]) + tail);
      Associate(head, WithoutSeparators(s[1..]), tail);
    }
  }

  // What is left is every character that is no separator, in its order.
  lemma {:induction false} WithoutSeparatorsKeepsTheRest(s: string) returns (at: seq<nat>)
    ensures AtTheRest(s, WithoutSeparators(s), at, c => c != '_' && c != '-' && c != ' ' && c != '.')
  {
    at := [];
    if s != "" {
      var n, keep := |s| - 1, c => c != '_' && c != '-' && c != ' ' && c != '.';
      at := WithoutSeparatorsKeepsTheRest(s[..n]);
      WithoutSeparatorsSnoc(s[..n], s[n]);
      assert keep(s[n]) <==> !Separator(s[n]);
      assert s == s[..n] + [s[n]];
      assert WithoutSeparators(s[..n]) + "" == WithoutSeparators(s[..n]);
      hide AtTheRest, WithoutSeparators;
      OneMoreAtTheRest(s[..n], s[n], WithoutSeparators(s[..n]), at, keep);
      at := if Separator(s[n]) then at else at + [n];
    }
  }

  function WantedKeys(text: Text, keys: seq<string>): set<string> {
    set k | k in keys :: NormalizeKey(text, k)
  }

  // ---------- the shape every walk follows ----------

  // What a walk descends into: the values of an object by sorted key, or the items
  // of an array.
  function Children(node: Json): (cs: seq<Json>)
    ensures forall i :: 0 <= i < |cs| ==> cs[i] < node
  {
    match node
    case Obj(members) => seq(|members|, i requires 0 <= i < |members| => members[i].value)
    case Arr(items) => items
    case _ => []
  }

  // An object together with its position in the document.
  datatype Place = Place(path: seq<nat>, members: seq<Member>)

  // Every object of the document, parents before children, children by sorted key.
  function Places(node: Json, path: seq<nat>): seq<Place>
    decreases node
  {
    (if node.Obj? then [Place(path, node.members)] else []) + PlacesAmong(node, Children(node), path)
  }

  function PlacesAmong(parent: Json, rest: seq<Json>, path: seq<nat>): seq<Place>
    requires forall i :: 0 <= i < |rest| ==> rest[i] < parent
    decreases parent, |rest|
  {
    if rest == [] then []
    else Places(rest[0], path + [|rest|]) + PlacesAmong(parent, rest[1..], path)
  }

  // ---------- positions ----------

  // What a path leads to: the value of an object's n-th member, by sorted key, or an
  // array's n-th item.
  function ValueAt(node: Json, path: seq<nat>): Option<Json>
    decreases |path|
  {
    if path == [] then Some(node)
    else
      match node
      case Obj(members) => if path[0] < |members| then ValueAt(members[path[0]].value, path[1..]) else None
      case Arr(items) => if path[0] < |items| then ValueAt(items[path[0]], path[1..]) else None
      case _ => None
  }

  ghost predicate InWalkOrder(paths: seq<seq<nat>>) {
    forall i, j :: 0 <= i < j < |paths| ==> Before(paths[i], paths[j])
  }

  // The values are those read at the paths.
  ghost predicate Reads<T>(read: seq<nat> -> Option<T>, values: seq<T>, paths: seq<seq<nat>>) {
    |paths| == |values| && forall i :: 0 <= i < |paths| ==> read(paths[i]) == Some(values[i])
  }

  // The paths are all at which something is read in the given child or a later one.
  ghost predicate AllFrom<T>(read: seq<nat> -> Option<T>, from: nat, paths: seq<seq<nat>>) {
    forall path :: path in paths <==> path != [] && path[0] >= from && read(path).Some?
  }

  // A walk from the given child on, left to right.
  ghost predicate WalksFrom<T>(read: seq<nat> -> Option<T>, from: nat, values: seq<T>, paths: seq<seq<nat>>) {
    Reads(read, values, paths) && InWalkOrder(paths) && AllFrom(read, from, paths)
  }

  // A walk of everything.
  ghost predicate Walks<T>(read: seq<nat> -> Option<T>, values: seq<T>, paths: seq<seq<nat>>) {
    Reads(read, values, paths) && InWalkOrder(paths) && forall path :: path in paths <==> read(path).Some?
  }

  // A walk that finds nothing, or one value.
  lemma ShortWalks<T>(read: seq<nat> -> Option<T>, values: seq<T>, paths: seq<seq<nat>>)
    requires Walks(read, values, paths)
    ensures values == [] <==> forall path :: read(path) == None
    ensures |values| == 1 ==> read(paths[0]) == Some(values[0]) && forall path :: read(path).Some? ==> path == paths[0]
  {
    if values == [] {
      forall path ensures read(path) == None {
        assert path !in paths;
      }
    } else {
      assert read(paths[0]) == Some(values[0]);
      forall path | |values| == 1 && read(path).Some? ensures path == paths[0] {
        assert path in paths;
      }
    }
  }

  function Below(child: nat, paths: seq<seq<nat>>): (r: seq<seq<nat>>)
    ensures |r| == |paths| && forall i :: 0 <= i < |r| ==> r[i] == [child] + paths[i]
  {
    seq(|paths|, i requires 0 <= i < |paths| => [child] + paths[i])
  }

  // A position lies in the child it names first.
  lemma ValueAtChild(node: Json, path: seq<nat>)
    requires path != []
    ensures ValueAt(node, path) ==
      if path[0] < |Children(node)| then ValueAt(Children(node)[path[0]], path[1..]) else None
  {}

  lemma ValueBelow(node: Json, child: nat, path: seq<nat>)
    requires child < |Children(node)|
    ensures ValueAt(node, [child] + path) == ValueAt(Children(node)[child], path)
  {
    ValueAtChild(node, [child] + path);
    assert ([child] + path)[1..] == path;
  }

  lemma PathsInOrder(first: seq<seq<nat>>, later: seq<seq<nat>>, child: nat)
    requires InWalkOrder(first) && InWalkOrder(later)
    requires forall path :: path in later ==> path != [] && path[0] > child
    ensures InWalkOrder(Below(child, first) + later)
  {
    var all := Below(child, first) + later;
    forall i, j | 0 <= i < j < |all| ensures Before(all[i], all[j]) {
      if j < |first| {
        assert all[i][1..] == first[i] && all[j][1..] == first[j];
      } else {
        assert all[j] == later[j - |first|] && all[j] in later;
        if i >= |first| {
          assert all[i] == later[i - |first|];
        }
      }
    }
  }

  lemma BelowHolds(child: nat, paths: seq<seq<nat>>, path: seq<nat>)
    ensures path in Below(child, paths) <==> path != [] && path[0] == child && path[1..] in paths
  {
    var below := Below(child, paths);
    if path != [] && path[0] == child && path[1..] in paths {
      var k :| 0 <= k < |paths| && paths[k] == path[1..];
      assert below[k] == [child] + path[1..] == path;
    }
    if path in below {
      var k :| 0 <= k < |below| && below[k] == path;
      assert path[1..] == paths[k];
    }
  }

  // The walk of one child and that of the later ones make one walk.
  lemma WalksJoin<T>(read: seq<nat> -> Option<T>, child: nat, first: seq<T>, paths: seq<seq<nat>>, later: seq<T>,
      laterPaths: seq<seq<nat>>)
    requires |paths| == |first| && InWalkOrder(paths)
    requires forall i :: 0 <= i < |paths| ==> read([child] + paths[i]) == Some(first[i])
    requires forall path :: path in paths <==> read([child] + path).Some?
    requires WalksFrom(read, child + 1, later, laterPaths)
    ensures WalksFrom(read, child, first + later, Below(child, paths) + laterPaths)
  {
    var all := Below(child, paths) + laterPaths;
    PathsInOrder(paths, laterPaths, child);
    forall path ensures path in all <==> path != [] && path[0] >= child && read(path).Some? {
      BelowHolds(child, paths, path);
      assert path in all <==> path in Below(child, paths) || path in laterPaths;
      if path != [] && path[0] == child {
        assert path == [child] + path[1..];
      }
    }
  }

  function ObjectAt(node: Json, path: seq<nat>): Option<seq<Member>> {
    var v := ValueAt(node, path);
    if v.Some? && v.value.Obj? then Some(v.value.members) else None
  }

  function MembersOf(places: seq<Place>): (r: seq<seq<Member>>)
    ensures |r| == |places| && forall i :: 0 <= i < |r| ==> r[i] == places[i].members
  {
    seq(|places|, i requires 0 <= i < |places| => places[i].members)
  }

  lemma PlacesStep(parent: Json, rest: seq<Json>, at: seq<nat>)
    requires rest != [] && forall i :: 0 <= i < |rest| ==> rest[i] < parent
    ensures MembersOf(PlacesAmong(parent, rest, at)) ==
      MembersOf(Places(rest[0], at + [|rest|])) + MembersOf(PlacesAmong(parent, rest[1..], at))
  {
    var first, later := Places(rest[0], at + [|rest|]), PlacesAmong(parent, rest[1..], at);
    assert MembersOf(first + later) == MembersOf(first) + MembersOf(later);
  }

  // Places holds every object of the document once, in the order of a depth-first walk.
  lemma {:induction false} PlacesByPosition(node: Json, at: seq<nat>) returns (paths: seq<seq<nat>>)
    ensures Walks(path => ObjectAt(node, path), MembersOf(Places(node, at)), paths)
    decreases node
  {
    var cs := Children(node);
    var below := PlacesFrom(node, 0, at);
    assert cs[0..] == cs;
    var deeper := MembersOf(PlacesAmong(node, cs, at));
    if node.Obj? {
      paths := [[]] + below;
      assert MembersOf(Places(node, at)) == [node.members] + deeper;
      forall path ensures path in paths <==> ObjectAt(node, path).Some? {
        assert path in paths <==> path == [] || path in below;
      }
    } else {
      paths := below;
      assert MembersOf(Places(node, at)) == deeper;
    }
  }

  lemma {:induction false} PlacesFrom(node: Json, from: nat, at: seq<nat>) returns (paths: seq<seq<nat>>)
    requires from <= |Children(node)|
    ensures WalksFrom(path => ObjectAt(node, path), from, MembersOf(PlacesAmong(node, Children(node)[from..], at)), paths)
    decreases node, |Children(node)| - from
  {
    var cs := Children(node);
    var read := path => ObjectAt(node, path);
    if from == |cs| {
      paths := [];
      forall path | path != [] && path[0] >= from ensures read(path).None? {
        ValueAtChild(node, path);
      }
    } else {
      var deeper := at + [|cs| - from];
      var first := PlacesByPosition(cs[from], deeper);
      var later := PlacesFrom(node, from + 1, at);
      var here, rest := MembersOf(Places(cs[from], deeper)), MembersOf(PlacesAmong(node, cs[from + 1..], at));
      forall path ensures read([from] + path) == ObjectAt(cs[from], path) {
        ValueBelow(node, from, path);
      }
      WalksJoin(read, from, here, first, rest, later);
      PlacesStep(node, cs[from..], at);
      assert cs[from..][1..] == cs[from + 1..];
      paths := Below(from, first) + later;
    }
  }

  // ---------- answers that depend on the range order ----------

  // What one member of an object offers a search, given the whole object.
  type Offer = (seq<Member>, Member) -> Option<string>

  // The first offer met while ranging over an object's members.
  function FirstOffer(offer: Offer, all: seq<Member>, ranged: seq<Member>): Option<string> {
    if ranged == [] then None
    else if offer(all, ranged[0]).Some? then offer(all, ranged[0])
    else FirstOffer(offer, all, ranged[1..])
  }

  // The first offer met in a list of places.
  function FindAt(offer: Offer, places: seq<Place>, query: set<string>, order: Ordering): Option<string> {
    if places == [] then None
    else
      var own := FirstOffer(offer, places[0].members, order(query, places[0].path, places[0].members));
      if own.Some? then own else FindAt(offer, places[1..], query, order)
  }

  // Everything an object offers, whatever the order.
  function Hits(offer: Offer, members: seq<Member>): set<string> {
    set m | m in members && offer(members, m).Some? :: offer(members, m).value
  }

  // Everything the first object with any offer offers.
  function Outcomes(offer: Offer, places: seq<Place>): set<string> {
    if places == [] then {}
    else if Hits(offer, places[0].members) != {} then Hits(offer, places[0].members)
    else Outcomes(offer, places[1..])
  }

  lemma {:induction false} FirstOfferIsAHit(offer: Offer, all: seq<Member>, ranged: seq<Member>)
    ensures var r := FirstOffer(offer, all, ranged);
      match r
      case None => forall m :: m in ranged ==> offer(all, m).None?
      case Some(v) => exists m :: m in ranged && offer(all, m) == Some(v)
  {
    if ranged != [] {
      FirstOfferIsAHit(offer, all, ranged[1..]);
      assert ranged[0] in ranged;
    }
  }

  // Ranging over an object finds one of its hits, or there is none to find.
  lemma RangingFindsAHit(offer: Offer, ms: seq<Member>, ranged: seq<Member>)
    requires multiset(ranged) == multiset(ms)
    ensures match FirstOffer(offer, ms, ranged)
      case None => Hits(offer, ms) == {}
      case Some(v) => v in Hits(offer, ms)
  {
    FirstOfferIsAHit(offer, ms, ranged);
    SameMembers(ranged, ms);
    var own := FirstOffer(offer, ms, ranged);
    if own.Some? {
      var m :| m in ranged && offer(ms, m) == own;
      assert m in ms;
    }
  }

  // Whatever the order, the answer is one of the outcomes, and there is one exactly
  // when there are outcomes.
  lemma {:induction false} FindAtGivesAnOutcome(offer: Offer, places: seq<Place>, query: set<string>, order: Order)
    ensures match FindAt(offer, places, query, order)
      case None => Outcomes(offer, places) == {}
      case Some(v) => v in Outcomes(offer, places)
  {
    if places != [] {
      var ms := places[0].members;
      RangingFindsAHit(offer, ms, order(query, places[0].path, ms));
      FindAtGivesAnOutcome(offer, places[1..], query, order);
    }
  }

  // Ranges over a member that offers the answer before the others.
  function Favour(offer: Offer, answer: string): Ordering {
    (q: set<string>, p: seq<nat>, ms: seq<Member>) => FavourIn(offer, answer, ms, |ms|)
  }

  function FavourIn(offer: Offer, answer: string, ms: seq<Member>, n: nat): (r: seq<Member>)
    requires n <= |ms|
    ensures multiset(r) == multiset(ms)
  {
    if n == 0 then ms
    else if offer(ms, ms[n - 1]) == Some(answer) then
      assert ms == ms[..n - 1] + [ms[n - 1]] + ms[n..];
      [ms[n - 1]] + ms[..n - 1] + ms[n..]
    else FavourIn(offer, answer, ms, n - 1)
  }

  lemma {:induction false} FavourPutsItFirst(offer: Offer, answer: string, ms: seq<Member>, n: nat, k: nat)
    requires k < n <= |ms| && offer(ms, ms[k]) == Some(answer)
    ensures FavourIn(offer, answer, ms, n) != []
    ensures offer(ms, FavourIn(offer, answer, ms, n)[0]) == Some(answer)
  {
    if offer(ms, ms[n - 1]) != Some(answer) {
      FavourPutsItFirst(offer, answer, ms, n - 1, k);
    }
  }

  // Every outcome is the answer under some order.
  lemma {:induction false} EveryOutcomeIsReached(offer: Offer, places: seq<Place>, query: set<string>, answer: string)
    requires answer in Outcomes(offer, places)
    ensures FindAt(offer, places, query, Favour(offer, answer)) == Some(answer)
  {
    var ms := places[0].members;
    var order: Order := Favour(offer, answer);
    var ranged := order(query, places[0].path, ms);
    if Hits(offer, ms) != {} {
      var k :| 0 <= k < |ms| && offer(ms, ms[k]) == Some(answer);
      FavourPutsItFirst(offer, answer, ms, |ms|, k);
    } else {
      RangingFindsAHit(offer, ms, ranged);
      EveryOutcomeIsReached(offer, places[1..], query, answer);
    }
  }

  ghost predicate OrderIndependent(offer: Offer, places: seq<Place>, query: set<string>) {
    forall o1: Order, o2: Order :: FindAt(offer, places, query, o1) == FindAt(offer, places, query, o2)
  }

  ghost predicate AtMostOne(s: set<string>) {
    forall a, b :: a in s && b in s ==> a == b
  }

  // The answer is the same for every order exactly when there is at most one outcome.
  lemma IndependentIffOneOutcome(offer: Offer, places: seq<Place>, query: set<string>)
    ensures OrderIndependent(offer, places, query) <==> AtMostOne(Outcomes(offer, places))
  {
    if AtMostOne(Outcomes(offer, places)) {
      forall o1: Order, o2: Order ensures FindAt(offer, places, query, o1) == FindAt(offer, places, query, o2) {
        FindAtGivesAnOutcome(offer, places, query, o1);
        FindAtGivesAnOutcome(offer, places, query, o2);
      }
    }
    if OrderIndependent(offer, places, query) {
      forall a, b | a in Outcomes(offer, places) && b in Outcomes(offer, places) ensures a == b {
        EveryOutcomeIsReached(offer, places, query, a);
        EveryOutcomeIsReached(offer, places, query, b);
        var oa: Order, ob: Order := Favour(offer, a), Favour(offer, b);
        assert FindAt(offer, places, query, oa) == FindAt(offer, places, query, ob);
      }
    }
  }

  lemma {:induction false} FindAtConcat(offer: Offer, a: seq<Place>, b: seq<Place>, query: set<string>, order: Ordering)
    ensures FindAt(offer, a + b, query, order) ==
      (if FindAt(offer, a, query, order).Some? then FindAt(offer, a, query, order) else FindAt(offer, b, query, order))
  {
    if a == [] {
      assert a + b == b;
    } else {
      assert (a + b)[1..] == a[1..] + b;
      FindAtConcat(offer, a[1..], b, query, order);
    }
  }
}
