/** The linked list of URI handlers: registration, update, deletion and look-up. */
module Handlers {
  import Glob
  import opened Wrappers

  datatype Kind = Request | WebSocket | Auth

  type Callback = nat

  datatype Callbacks = Callbacks(
    request: Option<Callback>, connect: Option<Callback>, ready: Option<Callback>,
    data: Option<Callback>, close: Option<Callback>, auth: Option<Callback>, cbdata: int)

  datatype Entry = Entry(kind: Kind, uri: string, cb: Callbacks)

  /** A call of mg_set_handler_type. */
  datatype Op = Op(kind: Kind, uri: string, delete: bool, cb: Callbacks)

  /** The combinations of arguments that the call does not silently ignore. */
  predicate Accepted(op: Op) {
    var cb := op.cb;
    var socket := cb.connect.Some? || cb.ready.Some? || cb.data.Some? || cb.close.Some?;
    match op.kind
    case WebSocket => cb.request.None? && cb.auth.None? && (op.delete || socket)
    case Request => !socket && cb.auth.None? && (op.delete || cb.request.Some?)
    case Auth => cb.request.None? && !socket && (op.delete || cb.auth.Some?)
  }

  /** The kinds of handler the given callbacks are meant for. */
  function Meant(cb: Callbacks): set<Kind> {
    (if cb.request.Some? then {Request} else {})
    + (if cb.connect.Some? || cb.ready.Some? || cb.data.Some? || cb.close.Some? then {WebSocket} else {})
    + (if cb.auth.Some? then {Auth} else {})
  }

  /** A call is heeded if its callbacks are meant for its kind and no other; only a deletion may come
      without any. */
  lemma AcceptedIs(op: Op)
    ensures Accepted(op) <==> Meant(op.cb) == {op.kind} || (op.delete && Meant(op.cb) == {})
  {
    assert Request in Meant(op.cb) <==> op.cb.request.Some?;
    assert Auth in Meant(op.cb) <==> op.cb.auth.Some?;
    assert WebSocket in Meant(op.cb)
      <==> op.cb.connect.Some? || op.cb.ready.Some? || op.cb.data.Some? || op.cb.close.Some?;
  }

  // ---- The association list ---------------------------------------------------------------

  predicate At(e: Entry, kind: Kind, uri: string) { e.kind == kind && e.uri == uri }

  function Find(list: seq<Entry>, kind: Kind, uri: string): (i: nat)
    ensures i <= |list| && (i < |list| ==> At(list[i], kind, uri))
    ensures forall j | 0 <= j < i :: !At(list[j], kind, uri)
  {
    if list == [] || At(list[0], kind, uri) then 0 else 1 + Find(list[1..], kind, uri)
  }

  function Apply(list: seq<Entry>, op: Op): seq<Entry> {
    var i := Find(list, op.kind, op.uri);
    if !Accepted(op) then list
    else if i < |list| then
      if op.delete then list[..i] + list[i + 1..] else list[i := Entry(op.kind, op.uri, op.cb)]
    else if op.delete then list
    else list + [Entry(op.kind, op.uri, op.cb)]
  }

  // ---- What a history of calls means --------------------------------------------------------

  predicate About(op: Op, kind: Kind, uri: string) { Accepted(op) && op.kind == kind && op.uri == uri }

  /** The callbacks last registered for a key, unless it was deleted since. */
  function Current(history: seq<Op>, kind: Kind, uri: string): Option<Callbacks> {
    if history == [] then None else
    var op := history[|history| - 1];
    if !About(op, kind, uri) then Current(history[..|history| - 1], kind, uri)
    else if op.delete then None else Some(op.cb)
  }

  /** When the registration that still stands was first made. */
  function Since(history: seq<Op>, kind: Kind, uri: string): (t: nat)
    ensures t <= |history|
  {
    if history == [] then 0 else
    var before, op := history[..|history| - 1], history[|history| - 1];
    if About(op, kind, uri) && (op.delete || Current(before, kind, uri).None?) then |history|
    else Since(before, kind, uri)
  }

  /** No heeded call from index i on is about the key. */
  predicate Untouched(history: seq<Op>, i: nat, kind: Kind, uri: string) {
    forall j | i <= j < |history| :: !(Accepted(history[j]) && history[j].kind == kind && history[j].uri == uri)
  }

  /** The callbacks are those of the last heeded call about the key, if that is no deletion. */
  lemma {:induction false} CurrentIs(history: seq<Op>, kind: Kind, uri: string, cb: Callbacks)
    ensures Current(history, kind, uri) == Some(cb)
       <==> exists i | 0 <= i < |history| ::
              history[i] == Op(kind, uri, false, cb) && Accepted(history[i]) && Untouched(history, i + 1, kind, uri)
  {
    if history != [] {
      var before, op := history[..|history| - 1], history[|history| - 1];
      CurrentIs(before, kind, uri, cb);
      if About(op, kind, uri) {
        assert forall i | 1 <= i <= |before| :: !Untouched(history, i, kind, uri);
        assert Untouched(history, |history|, kind, uri);
      } else {
        forall i | 0 <= i <= |before|
          ensures Untouched(history, i, kind, uri) <==> Untouched(before, i, kind, uri)
        {
          assert forall j | i <= j < |before| :: before[j] == history[j];
        }
        assert forall i | 0 <= i < |before| :: before[i] == history[i];
      }
    }
  }

  /** A registration that still stands was first made when none stood, and not deleted since. */
  lemma {:induction false} SinceIs(history: seq<Op>, kind: Kind, uri: string)
    requires Current(history, kind, uri).Some?
    ensures var t := Since(history, kind, uri);
            && 0 < t && Current(history[..t - 1], kind, uri).None? && Current(history[..t], kind, uri).Some?
            && forall j | t <= j < |history| :: history[j].delete ==> !About(history[j], kind, uri)
  {
    var before, op := history[..|history| - 1], history[|history| - 1];
    var t := Since(history, kind, uri);
    if t == |history| {
      assert history[..t] == history && before == history[..t - 1];
    } else {
      SinceIs(before, kind, uri);
      assert before[..t] == history[..t] && before[..t - 1] == history[..t - 1];
      forall j | t <= j < |history| && history[j].delete
        ensures !About(history[j], kind, uri)
      {
        assert j < |before| ==> before[j] == history[j];
      }
    }
  }

  function Build(history: seq<Op>): seq<Entry> {
    if history == [] then [] else Apply(Build(history[..|history| - 1]), history[|history| - 1])
  }

  /** The list holds exactly the current registrations, each key once, in the order in which
      they were first made. */
  ghost predicate Reflects(list: seq<Entry>, h: seq<Op>) {
    && (forall i | 0 <= i < |list| :: Current(h, list[i].kind, list[i].uri) == Some(list[i].cb))
    && (forall i, j | 0 <= i < j < |list| ::
          Since(h, list[i].kind, list[i].uri) < Since(h, list[j].kind, list[j].uri))
    && (forall kind, uri :: Current(h, kind, uri).Some? ==> Find(list, kind, uri) < |list|)
  }

  /** In such a list a key stands at most once. */
  lemma ReflectsUnique(list: seq<Entry>, h: seq<Op>, i: nat, j: nat)
    requires Reflects(list, h) && i < |list| && j < |list| && i != j
    ensures !At(list[j], list[i].kind, list[i].uri)
  {
  }

  lemma StepOther(h: seq<Op>, op: Op, kind: Kind, uri: string)
    requires !About(op, kind, uri)
    ensures Current(h + [op], kind, uri) == Current(h, kind, uri)
    ensures Since(h + [op], kind, uri) == Since(h, kind, uri)
  {
    assert (h + [op])[..|h|] == h;
  }

  lemma StepOwn(h: seq<Op>, op: Op)
    requires Accepted(op)
    ensures Current(h + [op], op.kind, op.uri) == if op.delete then None else Some(op.cb)
    ensures Since(h + [op], op.kind, op.uri)
         == if !op.delete && Current(h, op.kind, op.uri).Some? then Since(h, op.kind, op.uri) else |h| + 1
  {
    assert (h + [op])[..|h|] == h;
  }

  /** Entries other than the one an operation is about keep their callbacks and their age. */
  lemma OthersKept(list: seq<Entry>, h: seq<Op>, op: Op, i: nat)
    requires Reflects(list, h) && i < |list| && i != Find(list, op.kind, op.uri)
    ensures Current(h + [op], list[i].kind, list[i].uri) == Current(h, list[i].kind, list[i].uri)
    ensures Since(h + [op], list[i].kind, list[i].uri) == Since(h, list[i].kind, list[i].uri)
  {
    var p := Find(list, op.kind, op.uri);
    if p < |list| {
      ReflectsUnique(list, h, i, p);
    }
    StepOther(h, op, list[i].kind, list[i].uri);
  }

  /** Where the entry at position i of the new list stood in the old one. */
  function Origin(list: seq<Entry>, op: Op, i: nat): nat {
    if Accepted(op) && op.delete && Find(list, op.kind, op.uri) <= i < |list| then i + 1 else i
  }

  lemma AgeApplied(list: seq<Entry>, h: seq<Op>, op: Op, i: nat)
    requires Reflects(list, h) && i < |Apply(list, op)|
    ensures var e, o := Apply(list, op)[i], Origin(list, op, i);
            && Current(h + [op], e.kind, e.uri) == Some(e.cb)
            && o <= |list|
            && Since(h + [op], e.kind, e.uri)
               == if o < |list| then Since(h, list[o].kind, list[o].uri) else |h| + 1
  {
    var o, p := Origin(list, op, i), Find(list, op.kind, op.uri);
    AppliedAt(list, op, i);
    if o < |list| && o != p {
      OthersKept(list, h, op, o);
    } else if Accepted(op) {
      StepOwn(h, op);
    } else {
      StepOther(h, op, list[i].kind, list[i].uri);
    }
  }

  lemma RemovedAt<T>(list: seq<T>, p: nat, i: nat)
    requires p < |list| && i < |list| - 1
    ensures (list[..p] + list[p + 1..])[i] == list[if p <= i then i + 1 else i]
  {
  }

  /** What stands at position i after an operation. */
  lemma AppliedAt(list: seq<Entry>, op: Op, i: nat)
    requires i < |Apply(list, op)|
    ensures var e, o, p := Apply(list, op)[i], Origin(list, op, i), Find(list, op.kind, op.uri);
            && o <= |list|
            && (o < |list| && (o != p || !Accepted(op)) ==> e == list[o])
            && (o == |list| || (o == p && Accepted(op)) ==>
                  Accepted(op) && !op.delete && e == Entry(op.kind, op.uri, op.cb))
  {
    var p := Find(list, op.kind, op.uri);
    if Accepted(op) && op.delete && p < |list| {
      RemovedAt(list, p, i);
    }
  }

  lemma CurrentFound(list: seq<Entry>, h: seq<Op>, op: Op, kind: Kind, uri: string)
    requires Reflects(list, h) && Current(h + [op], kind, uri).Some?
    ensures Find(Apply(list, op), kind, uri) < |Apply(list, op)|
  {
    if About(op, kind, uri) {
      StepOwn(h, op);
    } else {
      StepOther(h, op, kind, uri);
    }
    FindApplied(list, op, kind, uri);
  }

  lemma ApplyReflects(list: seq<Entry>, h: seq<Op>, op: Op)
    requires Reflects(list, h)
    ensures Reflects(Apply(list, op), h + [op])
  {
    var list' := Apply(list, op);
    forall i | 0 <= i < |list'|
      ensures Current(h + [op], list'[i].kind, list'[i].uri) == Some(list'[i].cb)
    {
      AgeApplied(list, h, op, i);
    }
    forall i, j | 0 <= i < j < |list'|
      ensures Since(h + [op], list'[i].kind, list'[i].uri) < Since(h + [op], list'[j].kind, list'[j].uri)
    {
      AgeApplied(list, h, op, i);
      AgeApplied(list, h, op, j);
    }
    forall kind, uri | Current(h + [op], kind, uri).Some?
      ensures Find(list', kind, uri) < |list'|
    {
      CurrentFound(list, h, op, kind, uri);
    }
  }

  lemma FindApplied(list: seq<Entry>, op: Op, kind: Kind, uri: string)
    requires Find(list, kind, uri) < |list| || (About(op, kind, uri) && !op.delete)
    requires !(About(op, kind, uri) && op.delete)
    ensures Find(Apply(list, op), kind, uri) < |Apply(list, op)|
  {
    var p, list' := Find(list, op.kind, op.uri), Apply(list, op);
    var q := Find(list, kind, uri);
    if About(op, kind, uri) {
      var at := if p < |list| then p else |list|;
      assert At(list'[at], kind, uri);
    } else {
      var at := if Accepted(op) && op.delete && p < q then q - 1 else q;
      assert At(list'[at], kind, uri);
    }
  }

  /** For every history of registrations, updates and deletions. */
  lemma {:induction false} BuildReflects(h: seq<Op>)
    ensures Reflects(Build(h), h)
  {
    if h != [] {
      var before, op := h[..|h| - 1], h[|h| - 1];
      BuildReflects(before);
      ApplyReflects(Build(before), before, op);
      assert before + [op] == h;
    }
  }

  // ---- Look-up ---------------------------------------------------------------------------------

  /** uri lies below the handler's path. */
  predicate Below(e: Entry, uri: string) {
    |e.uri| < |uri| && uri[|e.uri|] == '/' && uri[..|e.uri|] == e.uri
  }

  /** Behind the handler's path comes a slash. */
  lemma BelowIs(e: Entry, uri: string)
    ensures Below(e, uri) <==> exists rest :: uri == e.uri + "/" + rest
  {
    if Below(e, uri) {
      assert uri == e.uri + "/" + uri[|e.uri| + 1..];
    }
  }

  /** The tests of the three passes over the list. */
  function Exact(kind: Kind, uri: string): Entry -> bool {
    (e: Entry) => e.kind == kind && e.uri == uri
  }

  function Parent(kind: Kind, uri: string): Entry -> bool {
    (e: Entry) => e.kind == kind && Below(e, uri)
  }

  function Pattern(kind: Kind, uri: string): Entry -> bool {
    (e: Entry) => e.kind == kind && Glob.Match(e.uri, uri) > 0
  }

  /** The first element that passes a test. */
  function First<T>(list: seq<T>, test: T -> bool): (i: nat)
    ensures i <= |list| && (i < |list| ==> test(list[i]))
    ensures forall j | 0 <= j < i :: !test(list[j])
  {
    if list == [] || test(list[0]) then 0 else 1 + First(list[1..], test)
  }

  /** The first element that passes the first test, else the first that passes the second,
      else the first that passes the third. */
  function Select<T>(list: seq<T>, a: T -> bool, b: T -> bool, c: T -> bool): Option<T> {
    if First(list, a) < |list| then Some(list[First(list, a)])
    else if First(list, b) < |list| then Some(list[First(list, b)])
    else if First(list, c) < |list| then Some(list[First(list, c)])
    else None
  }

  function Tier<T>(x: T, a: T -> bool, b: T -> bool, c: T -> bool): nat {
    if a(x) then 0 else if b(x) then 1 else if c(x) then 2 else 3
  }

  /** Position i holds the element of the lowest tier, and the earliest of that tier. */
  ghost predicate BestAt<T>(list: seq<T>, i: nat, a: T -> bool, b: T -> bool, c: T -> bool) {
    && i < |list| && Tier(list[i], a, b, c) < 3
    && (forall j | 0 <= j < |list| :: Tier(list[i], a, b, c) <= Tier(list[j], a, b, c))
    && (forall j | 0 <= j < i :: Tier(list[i], a, b, c) < Tier(list[j], a, b, c))
  }

  lemma SelectBest<T>(list: seq<T>, a: T -> bool, b: T -> bool, c: T -> bool)
    ensures Select(list, a, b, c).None? <==> forall i | 0 <= i < |list| :: Tier(list[i], a, b, c) == 3
    ensures Select(list, a, b, c).Some? ==>
            exists i: nat :: BestAt(list, i, a, b, c) && Select(list, a, b, c) == Some(list[i])
  {
    var i := if First(list, a) < |list| then First(list, a)
             else if First(list, b) < |list| then First(list, b) else First(list, c);
    if i < |list| {
      assert BestAt(list, i, a, b, c);
    }
  }

  function Lookup(list: seq<Entry>, kind: Kind, uri: string): Option<Entry> {
    Select(list, Exact(kind, uri), Parent(kind, uri), Pattern(kind, uri))
  }

  /** How well an entry fits, test by test: the last one by a non-empty match of some alternative. */
  lemma TierIs(e: Entry, kind: Kind, uri: string)
    ensures var tier := Tier(e, Exact(kind, uri), Parent(kind, uri), Pattern(kind, uri));
            && (tier == 0 <==> e.kind == kind && e.uri == uri)
            && (tier == 1 <==> e.kind == kind && exists rest :: uri == e.uri + "/" + rest)
            && (tier == 2 <==>
                  && tier !in {0, 1} && e.kind == kind
                  && exists i | 0 <= i < |Glob.Alternatives(e.uri)| ::
                       Glob.CanMatchSome(Glob.Alternatives(e.uri)[i], uri))
  {
    BelowIs(e, uri);
    Glob.MatchExact(e.uri, uri);
  }

  /** For every history, the look-up returns the current registration that fits best, exactly
      before as a parent path before as a pattern, the earliest among equals; it fails if and
      only if none fits. */
  lemma LookupBest(h: seq<Op>, kind: Kind, uri: string)
    ensures var list := Build(h);
            var a, b, c := Exact(kind, uri), Parent(kind, uri), Pattern(kind, uri);
            && (Lookup(list, kind, uri).None? <==> forall i | 0 <= i < |list| :: Tier(list[i], a, b, c) == 3)
            && (Lookup(list, kind, uri).Some? ==>
                  exists i: nat :: BestAt(list, i, a, b, c) && Lookup(list, kind, uri) == Some(list[i])
                                   && Current(h, list[i].kind, list[i].uri) == Some(list[i].cb))
  {
    BuildReflects(h);
    SelectBest(Build(h), Exact(kind, uri), Parent(kind, uri), Pattern(kind, uri));
  }

  // ---- The linked list -----------------------------------------------------------------------------

  class Node {
    const kind: Kind
    const uri: string
    var cb: Callbacks
    var next: Node?

    constructor (kind: Kind, uri: string, cb: Callbacks)
      ensures this.kind == kind && this.uri == uri && this.cb == cb && next == null
    {
      this.kind, this.uri, this.cb, next := kind, uri, cb, null;
    }

    function Value(): Entry
      reads this
    {
      Entry(kind, uri, cb)
    }
  }

  class Context {
    var handlers: Node?
    ghost var spine: seq<Node>

    /** The node behind position i, or null at the end. */
    ghost function After(i: int): Node?
      requires -1 <= i < |spine|
      reads this
    {
      if i + 1 < |spine| then spine[i + 1] else null
    }

    ghost predicate Valid()
      reads this, spine
    {
      && handlers == After(-1)
      && (forall i | 0 <= i < |spine| :: spine[i].next == After(i))
      && (forall i, j | 0 <= i < j < |spine| :: spine[i] != spine[j])
    }

    ghost function List(): seq<Entry>
      reads this, spine
    {
      seq(|spine|, i requires 0 <= i < |spine| reads this, spine => spine[i].Value())
    }

    constructor ()
      ensures Valid() && List() == []
    {
      handlers, spine := null, [];
    }

    /** Walks to the node of a key, or to the end, remembering the node before it. */
    method Walk(kind: Kind, uri: string) returns (prev: Node?, node: Node?, ghost p: nat)
      requires Valid()
      ensures p == Find(List(), kind, uri)
      ensures node == After(p as int - 1) && (p > 0 ==> prev == spine[p - 1]) && (p == 0 ==> prev == null)
    {
      prev, node, p := null, handlers, 0;
      while node != null && !(node.kind == kind && node.uri == uri)
        invariant p <= |spine| && node == After(p as int - 1)
        invariant p > 0 ==> prev == spine[p - 1]
        invariant p == 0 ==> prev == null
        invariant forall j | 0 <= j < p :: !At(List()[j], kind, uri)
        decreases |spine| - p
      {
        assert node == spine[p];
        prev, node, p := node, node.next, p + 1;
      }
      FindIs(List(), kind, uri, p);
    }

    /** Stores new callbacks in a node. */
    method Update(node: Node, cb: Callbacks, ghost p: nat)
      requires Valid() && p < |spine| && node == spine[p]
      modifies node`cb
      ensures Valid() && spine == old(spine)
      ensures List() == old(List())[p := Entry(node.kind, node.uri, cb)]
    {
      node.cb := cb;
    }

    /** Takes the node at position p out of the list. */
    method Unlink(prev: Node?, node: Node, ghost p: nat)
      requires Valid() && p < |spine| && node == spine[p]
      requires prev == if p == 0 then null else spine[p - 1]
      modifies this, prev
      ensures Valid() && spine == old(spine)[..p] + old(spine)[p + 1..]
      ensures List() == old(List())[..p] + old(List())[p + 1..]
    {
      ghost var list := List();
      Relink(prev, node, p);
      forall i | 0 <= i < |spine|
        ensures List()[i] == (list[..p] + list[p + 1..])[i]
      {
        assert spine[i] == old(spine)[if i < p then i else i + 1];
      }
    }

    method Relink(prev: Node?, node: Node, ghost p: nat)
      requires Valid() && p < |spine| && node == spine[p]
      requires prev == if p == 0 then null else spine[p - 1]
      modifies this, prev
      ensures Valid() && spine == old(spine)[..p] + old(spine)[p + 1..]
      ensures prev != null ==> prev.cb == old(prev.cb)
    {
      if prev == null {
        handlers := node.next;
      } else {
        prev.next := node.next;
      }
      ghost var before := spine;
      spine := spine[..p] + spine[p + 1..];
      forall i | 0 <= i < |spine|
        ensures spine[i].next == After(i)
      {
        if i < p {
          assert spine[i] == before[i] && (i + 1 < p ==> spine[i + 1] == before[i + 1]);
        } else {
          assert spine[i] == before[i + 1] != prev;
        }
      }
    }

    /** Appends a node behind the last one. */
    method Append(prev: Node?, node: Node)
      requires Valid() && node !in spine && node.next == null
      requires prev == if spine == [] then null else spine[|spine| - 1]
      modifies this, prev
      ensures Valid() && spine == old(spine) + [node] && List() == old(List()) + [node.Value()]
    {
      if prev == null {
        handlers := node;
      } else {
        prev.next := node;
      }
      spine := spine + [node];
    }

    /** mg_set_handler_type.  Without memory for a new handler the list stays as it is. */
    method SetHandler(op: Op) returns (noMemory: bool)
      requires Valid()
      modifies this, spine
      ensures Valid() && List() == if noMemory then old(List()) else Apply(old(List()), op)
      ensures noMemory ==> Accepted(op) && !op.delete && Find(old(List()), op.kind, op.uri) == |old(List())|
      ensures forall n <- spine :: n in old(spine) || fresh(n)
    {
      noMemory := false;
      if !Accepted(op) {
        return;
      }
      var prev, node, p := Walk(op.kind, op.uri);
      if node != null {
        Change(op, prev, node, p);
        return;
      }
      if op.delete {
        return;
      }
      noMemory := *;
      if !noMemory {
        AppendNew(op, prev);
      }
    }

    /** An existing handler is updated or removed. */
    method Change(op: Op, prev: Node?, node: Node, ghost p: nat)
      requires Valid() && Accepted(op) && p == Find(List(), op.kind, op.uri) && p < |spine| && node == spine[p]
      requires prev == if p == 0 then null else spine[p - 1]
      modifies this, spine
      ensures Valid() && List() == Apply(old(List()), op) && forall n <- spine :: n in old(spine)
    {
      if !op.delete {
        Update(node, op.cb, p);
      } else {
        Unlink(prev, node, p);
      }
    }

    /** A new handler goes behind the last one. */
    method AppendNew(op: Op, prev: Node?)
      requires Valid() && Accepted(op) && !op.delete && Find(List(), op.kind, op.uri) == |spine|
      requires prev == if spine == [] then null else spine[|spine| - 1]
      modifies this, spine
      ensures Valid() && List() == Apply(old(List()), op) && forall n <- spine :: n in old(spine) || fresh(n)
    {
      var created := new Node(op.kind, op.uri, op.cb);
      Append(prev, created);
    }

    /** One pass of the look-up. */
    method Pass(test: Entry -> bool) returns (node: Node?)
      requires Valid()
      ensures var i := First(List(), test);
              node == if i < |spine| then spine[i] else null
    {
      node := handlers;
      ghost var i := 0;
      while node != null && !test(node.Value())
        invariant i <= |spine| && node == After(i as int - 1)
        invariant forall j | 0 <= j < i :: !test(List()[j])
        decreases |spine| - i
      {
        node, i := node.next, i + 1;
      }
      FirstIs(List(), test, i);
    }

    /** Three passes, each only if the one before found nothing. */
    method ThreePasses(a: Entry -> bool, b: Entry -> bool, c: Entry -> bool) returns (found: Option<Callbacks>)
      requires Valid()
      ensures var e := Select(List(), a, b, c);
              found == if e.Some? then Some(e.value.cb) else None
    {
      var node := Pass(a);
      if node != null {
        return Some(node.cb);
      }
      node := Pass(b);
      if node != null {
        return Some(node.cb);
      }
      node := Pass(c);
      return if node == null then None else Some(node.cb);
    }

    /** get_request_handler. */
    method GetHandler(kind: Kind, uri: string) returns (found: Option<Callbacks>)
      requires Valid()
      ensures var e := Lookup(List(), kind, uri);
              found == if e.Some? then Some(e.value.cb) else None
    {
      found := ThreePasses(Exact(kind, uri), Parent(kind, uri), Pattern(kind, uri));
    }
  }

  lemma FirstIs<T>(list: seq<T>, test: T -> bool, i: nat)
    requires i <= |list| && (i < |list| ==> test(list[i]))
    requires forall j | 0 <= j < i :: !test(list[j])
    ensures First(list, test) == i
  {
  }

  lemma FindIs(list: seq<Entry>, kind: Kind, uri: string, p: nat)
    requires p <= |list| && (p < |list| ==> At(list[p], kind, uri))
    requires forall j | 0 <= j < p :: !At(list[j], kind, uri)
    ensures Find(list, kind, uri) == p
  {
  }
}
