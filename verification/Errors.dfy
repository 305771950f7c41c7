// internal/kmp/errors.go: errors form a tree, and permanence is read off the tree.
module Errors {
  import opened Basics

  // Errors that carry nothing but their identity.
  datatype Sentinel =
    | InvalidConfig                      // ErrInvalidConfig
    | UnusableResponse                   // ErrUnusableResponse
    | GetAuthSecret | SignerBuilder | SignerSign | HealthCheckerBuilder | HealthCheckerCheck
    | ContextDone                        // context.Canceled or DeadlineExceeded
    | Foreign(id: nat)                   // any error of another package

  // How errors are built: a sentinel, an API error with an optional cause, a message
  // around another error (%w), several joined, or mere text: what %v and %s leave of an
  // error is part of the text and cannot be unwrapped.
  datatype Error =
    | Plain(sentinel: Sentinel)
    | Api(status: int, permanent: bool, cause: Option<Error>)
    | Wrap(inner: Error)
    | Join(left: Error, right: Error)
    | Message

  // errors.Is against a sentinel.
  predicate Is(err: Error, target: Sentinel) {
    match err
    case Plain(s) => s == target
    case Api(_, _, cause) => cause.Some? && Is(cause.value, target)
    case Wrap(inner) => Is(inner, target)
    case Join(l, r) => Is(l, target) || Is(r, target)
    case Message => false
  }

  // errors.As for *Error: the first API error met, before its cause.
  function AsApi(err: Error): (r: Option<Error>)
    ensures r.Some? ==> r.value.Api?
  {
    match err
    case Plain(_) => None
    case Api(_, _, _) => Some(err)
    case Wrap(inner) => AsApi(inner)
    case Join(l, r) => if AsApi(l).Some? then AsApi(l) else AsApi(r)
    case Message => None
  }

  predicate IsPermanent(err: Error) {
    if Is(err, InvalidConfig) || Is(err, UnusableResponse) then true
    else AsApi(err).Some? && AsApi(err).value.permanent
  }

  // A request that was itself rejected, as opposed to one not served.
  predicate PermanentStatus(code: int) {
    code != 408 && code != 429 && 400 <= code < 500
  }

  // ---------- permanence in plain terms ----------

  // The error met on a path of causes, wrapped errors, and halves of joined ones.
  function NodeAt(err: Error, path: seq<nat>): Option<Error>
    decreases |path|
  {
    if path == [] then Some(err)
    else
      match err
      case Api(_, _, Some(cause)) => if path[0] == 0 then NodeAt(cause, path[1..]) else None
      case Wrap(inner) => if path[0] == 0 then NodeAt(inner, path[1..]) else None
      case Join(left, right) =>
        if path[0] == 0 then NodeAt(left, path[1..]) else if path[0] == 1 then NodeAt(right, path[1..]) else None
      case _ => None
  }

  ghost predicate Reaches(err: Error, target: Sentinel) {
    exists path :: NodeAt(err, path) == Some(Plain(target))
  }

  lemma ReachedThrough(err: Error, step: nat, target: Sentinel)
    requires NodeAt(err, [step]).Some? && Reaches(NodeAt(err, [step]).value, target)
    ensures Reaches(err, target)
  {
    var path :| NodeAt(NodeAt(err, [step]).value, path) == Some(Plain(target));
    assert ([step] + path)[1..] == path && [step][1..] == [];
    assert NodeAt(err, [step] + path) == Some(Plain(target));
  }

  // errors.Is finds a sentinel exactly when some path leads to it.
  lemma {:induction false} IsReaches(err: Error, target: Sentinel)
    ensures Is(err, target) <==> Reaches(err, target)
  {
    assert NodeAt(err, []) == Some(err);
    match err
    case Plain(_) =>
    case Api(_, _, None) =>
    case Api(_, _, Some(cause)) =>
      IsReaches(cause, target);
      ReachesBelow(err, target);
      assert [0][1..] == [] && NodeAt(err, [0]) == Some(cause);
      if Is(cause, target) { ReachedThrough(err, 0, target); }
    case Wrap(inner) =>
      IsReaches(inner, target);
      ReachesBelow(err, target);
      assert [0][1..] == [] && NodeAt(err, [0]) == Some(inner);
      if Is(inner, target) { ReachedThrough(err, 0, target); }
    case Join(left, right) =>
      IsReaches(left, target);
      IsReaches(right, target);
      ReachesBelow(err, target);
      assert [0][1..] == [] && [1][1..] == [] && NodeAt(err, [0]) == Some(left) && NodeAt(err, [1]) == Some(right);
      if Is(left, target) { ReachedThrough(err, 0, target); }
      if Is(right, target) { ReachedThrough(err, 1, target); }
    case Message =>
  }

  // What an error reaches it is, or one of those it was made of reaches.
  lemma ReachesBelow(err: Error, target: Sentinel)
    requires err != Plain(target)
    ensures Reaches(err, target) ==>
      match err
      case Api(_, _, Some(cause)) => Reaches(cause, target)
      case Wrap(inner) => Reaches(inner, target)
      case Join(left, right) => Reaches(left, target) || Reaches(right, target)
      case _ => false
  {
    if path :| NodeAt(err, path) == Some(Plain(target)) {
      var rest := path[1..];
      match err
      case Api(_, _, Some(cause)) => assert NodeAt(cause, rest) == Some(Plain(target));
      case Wrap(inner) => assert NodeAt(inner, rest) == Some(Plain(target));
      case Join(left, right) => assert NodeAt(if path[0] == 0 then left else right, rest) == Some(Plain(target));
      case _ =>
    }
  }

  // The first API error on a depth-first walk, if there is any.
  ghost predicate FirstApi(err: Error, api: Option<Error>) {
    match api
    case None => forall path :: NodeAt(err, path).Some? ==> !NodeAt(err, path).value.Api?
    case Some(a) => a.Api? && exists path :: NodeAt(err, path) == Some(a) && NoApiBefore(err, path)
  }

  ghost predicate NoApiBefore(err: Error, path: seq<nat>) {
    forall other :: NodeAt(err, other).Some? && NodeAt(err, other).value.Api? ==> other == path || Before(path, other)
  }

  lemma NodeBelow(err: Error, path: seq<nat>)
    requires path != []
    ensures NodeAt(err, path) == (if NodeAt(err, [path[0]]).Some? then NodeAt(NodeAt(err, [path[0]]).value, path[1..]) else None)
  {
    assert [path[0]][1..] == [];
  }

  // An error that only wraps another has that one's first API error.
  lemma FirstApiThrough(err: Error, inner: Error, api: Option<Error>)
    requires err == Wrap(inner) && FirstApi(inner, api)
    ensures FirstApi(err, api)
  {
    forall path ensures NodeAt(err, path) == (if path == [] then Some(err) else if path[0] == 0 then NodeAt(inner, path[1..]) else None) {}
    if api.Some? {
      var path :| NodeAt(inner, path) == Some(api.value) && NoApiBefore(inner, path);
      var longer := [0] + path;
      assert longer[1..] == path;
      forall other | NodeAt(err, other).Some? && NodeAt(err, other).value.Api?
        ensures other == longer || Before(longer, other)
      {
        assert other != [] && other[0] == 0;
        assert other == [0] + other[1..];
      }
    }
  }

  // A joined error has the left one's, or else the right one's.
  lemma FirstApiOfJoin(err: Error, left: Option<Error>, right: Option<Error>)
    requires err.Join? && FirstApi(err.left, left) && FirstApi(err.right, right)
    ensures FirstApi(err, if left.Some? then left else right)
  {
    var side: nat, half := if left.Some? then 0 else 1, if left.Some? then err.left else err.right;
    var api := if left.Some? then left else right;
    if api.Some? {
      var path :| NodeAt(half, path) == Some(api.value) && NoApiBefore(half, path);
      var longer := [side] + path;
      assert longer[1..] == path;
      forall other | NodeAt(err, other).Some? && NodeAt(err, other).value.Api?
        ensures other == longer || Before(longer, other)
      {
        assert other != [] && other == [other[0]] + other[1..];
        assert other[0] == 0 ==> NodeAt(err.left, other[1..]) == NodeAt(err, other);
        assert other[0] == 1 ==> NodeAt(err.right, other[1..]) == NodeAt(err, other);
      }
      assert NodeAt(err, longer) == api && NoApiBefore(err, longer);
    } else {
      forall path | NodeAt(err, path).Some? ensures !NodeAt(err, path).value.Api? {
        if path != [] {
          assert NodeAt(if path[0] == 0 then err.left else err.right, path[1..]) == NodeAt(err, path);
        }
      }
    }
  }

  // errors.As finds the first API error.
  lemma {:induction false} AsApiIsFirst(err: Error)
    ensures FirstApi(err, AsApi(err))
  {
    match err
    case Plain(_) =>
    case Message =>
    case Api(_, _, _) =>
      assert NodeAt(err, []) == Some(err) && NoApiBefore(err, []);
    case Wrap(inner) =>
      AsApiIsFirst(inner);
      FirstApiThrough(err, inner, AsApi(inner));
    case Join(left, right) =>
      AsApiIsFirst(left);
      AsApiIsFirst(right);
      FirstApiOfJoin(err, AsApi(left), AsApi(right));
  }

  // An error is permanent exactly when it reaches a configuration or an unusable response,
  // or the first API error in it says so.
  lemma PermanenceInPlainTerms(err: Error, api: Option<Error>)
    requires FirstApi(err, api)
    ensures IsPermanent(err) <==>
      Reaches(err, InvalidConfig) || Reaches(err, UnusableResponse) || (api.Some? && api.value.permanent)
  {
    IsReaches(err, InvalidConfig);
    IsReaches(err, UnusableResponse);
    AsApiIsFirst(err);
    FirstApiIsUnique(err, api, AsApi(err));
  }

  lemma FirstApiIsUnique(err: Error, a: Option<Error>, b: Option<Error>)
    requires FirstApi(err, a) && FirstApi(err, b)
    ensures a == b
  {
    if a.Some? && b.Some? {
      var pa :| NodeAt(err, pa) == Some(a.value) && NoApiBefore(err, pa);
      var pb :| NodeAt(err, pb) == Some(b.value) && NoApiBefore(err, pb);
      BeforeIsOneWay(pa, pb);
    }
  }

  lemma {:induction false} BeforeIsOneWay(a: seq<nat>, b: seq<nat>)
    ensures !(Before(a, b) && Before(b, a))
  {
    if a != [] && b != [] {
      BeforeIsOneWay(a[1..], b[1..]);
    }
  }

  // The error under any number of messages.
  function Wrapped(err: Error, depth: nat): Error {
    if depth == 0 then err else Wrap(Wrapped(err, depth - 1))
  }

  // Wrapping with %w, however often, changes nothing that is read off an error.
  lemma {:induction false} WrappingPreservesPermanence(err: Error, depth: nat)
    ensures forall s :: Is(Wrapped(err, depth), s) == Is(err, s)
    ensures AsApi(Wrapped(err, depth)) == AsApi(err)
    ensures IsPermanent(Wrapped(err, depth)) == IsPermanent(err)
  {
    if depth > 0 {
      WrappingPreservesPermanence(err, depth - 1);
    }
  }

  // Joining a context error to a failure leaves its class alone.
  lemma JoiningContextPreservesPermanence(err: Error)
    ensures IsPermanent(Join(err, Plain(ContextDone))) == IsPermanent(err)
  {
    var done := Plain(ContextDone);
    assert !Is(done, InvalidConfig) && !Is(done, UnusableResponse) && AsApi(done).None?;
  }
}
