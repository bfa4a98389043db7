/** Publishing endpoints to listeners: per listener a cache from each published endpoint that
    its scope matches to the first matching filter, and the notifications sent along the way
    (section 122.6 of the OSGi Remote Service Admin specification). */
module EndpointPublishing {
  import opened Wrappers
  import opened Collections

  type Id = string

  type Props = map<string, string>

  type Filter = string

  /** How a filter judges the properties of an endpoint. */
  type Judge = (Filter, Props) -> bool

  // ---- What a listener is told --------------------------------------------------------------

  datatype Note =
    | Added(id: Id, props: Props, filter: Filter)
    | Modified(id: Id, props: Props, filter: Filter)
    | Removed(id: Id, filter: Filter)
    | Endmatch(id: Id, filter: Filter)

  datatype Match = Match(props: Props, filter: Filter)

  type View = map<Id, Match>

  /** What a listener believes after one more notification; None once a notification made no
      sense: an addition of something present, or any other news about something absent. */
  function Hear(v: Option<View>, n: Note): Option<View> {
    if v.None? then None
    else if n.Added? then (if n.id in v.value then None else Some(v.value[n.id := Match(n.props, n.filter)]))
    else if n.id !in v.value then None
    else if n.Modified? then Some(v.value[n.id := Match(n.props, n.filter)])
    else Some(v.value - {n.id})
  }

  /** The view a stream of notifications builds up. */
  function Listen(told: seq<Note>): Option<View> {
    if told == [] then Some(map[]) else Hear(Listen(told[..|told| - 1]), told[|told| - 1])
  }

  datatype Kind = EventListener | OldListener

  /** The calls a notification turns into; the older interface knows only two of them. */
  function Calls(kind: Kind, n: Note): seq<Note> {
    if kind.EventListener? then [n]
    else match n
      case Modified(id, props, f) => [Removed(id, f), Added(id, props, f)]
      case Endmatch(id, f) => [Removed(id, f)]
      case _ => [n]
  }

  lemma ListenOne(told: seq<Note>, n: Note)
    ensures Listen(told + [n]) == Hear(Listen(told), n)
  {
    assert (told + [n])[..|told|] == told;
  }

  /** Both kinds of listener end up believing the same. */
  lemma ListenCalls(kind: Kind, told: seq<Note>, n: Note)
    requires Listen(told).Some? && (n.Added? <==> n.id !in Listen(told).value)
    ensures Listen(told + Calls(kind, n)) == Hear(Listen(told), n)
  {
    if kind.OldListener? && n.Modified? {
      var r, a := Removed(n.id, n.filter), Added(n.id, n.props, n.filter);
      ListenOne(told, r);
      ListenOne(told + [r], a);
      assert told + [r] + [a] == told + Calls(kind, n);
      var v := Listen(told).value;
      var x := Match(n.props, n.filter);
      assert (v - {n.id})[n.id := x] == v[n.id := x];
    } else {
      ListenOne(told, Calls(kind, n)[0]);
    }
  }

  // ---- Well-formed streams, as words ------------------------------------------------------------

  /** What a stream says about one endpoint. */
  function About(told: seq<Note>, id: Id): seq<Note> {
    if told == [] then []
    else
      var n := told[|told| - 1];
      About(told[..|told| - 1], id) + if n.id == id then [n] else []
  }

  /** (ADDED MODIFIED* (REMOVED or ENDMATCH))*, possibly unfinished; inside a life, the word goes on
      with its second letter. */
  predicate Word(ns: seq<Note>, inside: bool) {
    ns == [] || (
      if inside then !ns[0].Added? && Word(ns[1..], ns[0].Modified?)
      else ns[0].Added? && Word(ns[1..], true))
  }

  predicate Alive(ns: seq<Note>, inside: bool) {
    if ns == [] then inside else ns[|ns| - 1].Added? || ns[|ns| - 1].Modified?
  }

  /** A word goes on with an addition exactly when no life is under way. */
  lemma {:induction false} WordNext(ns: seq<Note>, n: Note, inside: bool)
    ensures Word(ns + [n], inside) <==> Word(ns, inside) && (n.Added? <==> !Alive(ns, inside))
  {
    if ns == [] {
      assert [n][1..] == [] && ns + [n] == [n];
    } else {
      assert (ns + [n])[1..] == ns[1..] + [n];
      WordNext(ns[1..], n, if inside then ns[0].Modified? else true);
    }
  }

  ghost predicate Worded(told: seq<Note>) {
    forall id :: Word(About(told, id), false)
  }

  /** A listener makes sense of a stream if and only if the stream is, per endpoint, such a word; and
      it then believes present exactly the endpoints whose life is under way. */
  lemma {:induction false} ListenWords(told: seq<Note>)
    ensures Listen(told).Some? <==> Worded(told)
    ensures Listen(told).Some? ==> forall id :: id in Listen(told).value <==> Alive(About(told, id), false)
  {
    if told != [] {
      var before, n := told[..|told| - 1], told[|told| - 1];
      ListenWords(before);
      WordedNext(told);
      forall id
        ensures Listen(told).Some? ==> (id in Listen(told).value <==> Alive(About(told, id), false))
      {
        assert id in (if Listen(before).Some? then Listen(before).value else map[])
          <==> Listen(before).Some? && Alive(About(before, id), false);
      }
    } else {
      assert forall id :: About(told, id) == [];
    }
  }

  lemma WordedNext(told: seq<Note>)
    requires told != []
    ensures var before, n := told[..|told| - 1], told[|told| - 1];
            Worded(told) <==> Worded(before) && (n.Added? <==> !Alive(About(before, n.id), false))
  {
    var before, n := told[..|told| - 1], told[|told| - 1];
    WordNext(About(before, n.id), n, false);
    assert About(told, n.id) == About(before, n.id) + [n];
    forall id | id != n.id
      ensures About(told, id) == About(before, id)
    {
    }
    if Worded(told) {
      assert Word(About(told, n.id), false);
      forall id
        ensures Word(About(before, id), false)
      {
        assert Word(About(told, id), false);
      }
    }
  }

  // ---- One listener ---------------------------------------------------------------------------

  datatype Handler = Handler(kind: Kind, filters: seq<Filter>, matches: map<Id, Match>, told: seq<Note>)

  function FirstMatch(judge: Judge, filters: seq<Filter>, p: Props): Option<Filter> {
    if filters == [] then None
    else if judge(filters[0], p) then Some(filters[0])
    else FirstMatch(judge, filters[1..], p)
  }

  /** The first of the filters that match. */
  ghost predicate IsFirst(judge: Judge, filters: seq<Filter>, p: Props, f: Filter) {
    exists i | 0 <= i < |filters| ::
      filters[i] == f && judge(f, p) && forall j | 0 <= j < i :: !judge(filters[j], p)
  }

  /** Some filter matches. */
  predicate InScope(judge: Judge, filters: seq<Filter>, p: Props) {
    exists f <- filters :: judge(f, p)
  }

  lemma {:induction false} FirstMatchIs(judge: Judge, filters: seq<Filter>, p: Props)
    ensures FirstMatch(judge, filters, p).Some? <==> InScope(judge, filters, p)
    ensures forall f :: FirstMatch(judge, filters, p) == Some(f) <==> IsFirst(judge, filters, p, f)
  {
    if filters != [] {
      var rest := filters[1..];
      assert filters == [filters[0]] + rest;
      FirstMatchIs(judge, rest, p);
      forall f
        ensures FirstMatch(judge, filters, p) == Some(f) <==> IsFirst(judge, filters, p, f)
      {
        if judge(filters[0], p) {
          assert filters[0] == f ==> IsFirst(judge, filters, p, f);
        } else {
          LaterFirst(judge, filters, p, f);
        }
      }
    }
  }

  lemma LaterFirst(judge: Judge, filters: seq<Filter>, p: Props, f: Filter)
    requires filters != [] && !judge(filters[0], p)
    ensures IsFirst(judge, filters, p, f) <==> IsFirst(judge, filters[1..], p, f)
  {
    var rest := filters[1..];
    if IsFirst(judge, rest, p, f) {
      var i :| 0 <= i < |rest| && rest[i] == f && judge(f, p) && forall j | 0 <= j < i :: !judge(rest[j], p);
      assert filters[i + 1] == f;
      assert forall j | 0 < j < i + 1 :: filters[j] == rest[j - 1];
    }
    if IsFirst(judge, filters, p, f) {
      var i :| 0 <= i < |filters| && filters[i] == f && judge(f, p) && forall j | 0 <= j < i :: !judge(filters[j], p);
      assert rest[i - 1] == f;
      assert forall j | 0 <= j < i - 1 :: rest[j] == filters[j + 1];
    }
  }

  function Tell(h: Handler, n: Note): Handler {
    h.(told := h.told + Calls(h.kind, n))
  }

  function Put(h: Handler, id: Id, p: Props, f: Filter): Handler {
    h.(matches := h.matches[id := Match(p, f)])
  }

  function Drop(h: Handler, id: Id): Handler {
    h.(matches := h.matches - {id})
  }

  function OnAdded(judge: Judge, h: Handler, id: Id, p: Props): Handler {
    match FirstMatch(judge, h.filters, p)
    case Some(f) => Tell(Put(h, id, p, f), Added(id, p, f))
    case None => h
  }

  function OnRemoved(h: Handler, id: Id): Handler {
    if id in h.matches then Tell(Drop(h, id), Removed(id, h.matches[id].filter)) else h
  }

  /** When the scope stops matching, the code hands over the filter that did not match, which
      is null; the resulting exception is swallowed and the listener is told nothing. */
  function OnModified(judge: Judge, h: Handler, id: Id, p: Props): Handler {
    match FirstMatch(judge, h.filters, p)
    case Some(f) =>
      Tell(Put(h, id, p, f), if id in h.matches then Modified(id, p, f) else Added(id, p, f))
    case None => Drop(h, id)
  }

  /** One endpoint's turn when the scope is re-evaluated. */
  function Reconsider(judge: Judge, h: Handler, id: Id, p: Props): Handler {
    match FirstMatch(judge, h.filters, p)
    case Some(f) =>
      if id !in h.matches then Tell(Put(h, id, p, f), Added(id, p, f))
      else if f != h.matches[id].filter then
        Tell(h.(matches := h.matches[id := h.matches[id].(filter := f)]), Modified(id, p, f))
      else h
    case None =>
      if id in h.matches then Tell(Drop(h, id), Endmatch(id, h.matches[id].filter)) else h
  }

  function ReconsiderAll(judge: Judge, h: Handler, published: map<Id, Props>, order: seq<Id>): Handler
    requires forall id <- order :: id in published
  {
    if order == [] then h else
    var id := order[|order| - 1];
    Reconsider(judge, ReconsiderAll(judge, h, published, order[..|order| - 1]), id, published[id])
  }

  /** The scope property changed; None stands for a filter that does not parse, in which case
      the old filters are already gone and nothing else happens. */
  function OnScope(
      judge: Judge, h: Handler, scope: Option<seq<Filter>>, published: map<Id, Props>, order: seq<Id>): Handler
    requires forall id <- order :: id in published
  {
    match scope
    case Some(filters) => ReconsiderAll(judge, h.(filters := filters), published, order)
    case None => h.(filters := [])
  }

  /** The listener goes away: a removal for every entry, in some order. */
  function Farewell(h: Handler, order: seq<Id>): Handler
    requires forall id <- order :: id in h.matches
  {
    if order == [] then h else
    var id := order[|order| - 1];
    Tell(Farewell(h, order[..|order| - 1]), Removed(id, h.matches[id].filter))
  }

  // ---- What holds of a listener -----------------------------------------------------------------

  /** What the listener believes, properties and matching filters, is exactly what is cached for it. */
  predicate Informed(h: Handler) {
    Listen(h.told) == Some(h.matches)
  }

  /** The cache, recomputed from scratch. */
  function Recomputed(judge: Judge, filters: seq<Filter>, published: map<Id, Props>): map<Id, Match> {
    map id | id in published && FirstMatch(judge, filters, published[id]).Some?
           :: Match(published[id], FirstMatch(judge, filters, published[id]).value)
  }

  predicate Cached(judge: Judge, h: Handler, published: map<Id, Props>) {
    h.matches == Recomputed(judge, h.filters, published)
  }

  /** Exactly the published endpoints that some filter matches, as published, each with the first such
      filter. */
  ghost predicate Scoped(judge: Judge, m: map<Id, Match>, filters: seq<Filter>, published: map<Id, Props>) {
    && (forall id :: id in m <==> id in published && exists f <- filters :: judge(f, published[id]))
    && (forall id | id in m :: m[id].props == published[id] && IsFirst(judge, filters, published[id], m[id].filter))
  }

  lemma RecomputedAt(judge: Judge, filters: seq<Filter>, published: map<Id, Props>, id: Id, x: Match)
    ensures var r := Recomputed(judge, filters, published);
            && (id in r <==> id in published && exists f <- filters :: judge(f, published[id]))
            && (id in r ==> (r[id] == x <==> x.props == published[id] && IsFirst(judge, filters, x.props, x.filter)))
  {
    if id in published {
      FirstMatchIs(judge, filters, published[id]);
    }
  }

  lemma RecomputedIs(judge: Judge, m: map<Id, Match>, filters: seq<Filter>, published: map<Id, Props>)
    ensures m == Recomputed(judge, filters, published) <==> Scoped(judge, m, filters, published)
  {
    var r := Recomputed(judge, filters, published);
    forall id
      ensures id in r <==> id in published && exists f <- filters :: judge(f, published[id])
    {
      RecomputedAt(judge, filters, published, id, Match(map[], ""));
    }
    forall id | id in m && id in r
      ensures r[id] == m[id] <==> m[id].props == published[id] && IsFirst(judge, filters, published[id], m[id].filter)
    {
      RecomputedAt(judge, filters, published, id, m[id]);
    }
  }

  lemma TellKeeps(h: Handler, g: Handler, n: Note)
    requires Informed(h) && g.told == h.told && g.kind == h.kind
    requires n.Added? <==> n.id !in h.matches
    requires Hear(Some(h.matches), n) == Some(g.matches)
    ensures Informed(Tell(g, n))
  {
    ListenCalls(h.kind, h.told, n);
  }

  /** How the recomputed cache follows one change of what is published. */
  lemma RecomputedChange(judge: Judge, filters: seq<Filter>, published: map<Id, Props>, id: Id, p: Props)
    ensures Recomputed(judge, filters, published - {id}) == Recomputed(judge, filters, published) - {id}
    ensures Recomputed(judge, filters, published[id := p])
         == match FirstMatch(judge, filters, p)
            case Some(f) => Recomputed(judge, filters, published)[id := Match(p, f)]
            case None => Recomputed(judge, filters, published) - {id}
  {
  }

  /** The cached descriptions are the published ones. */
  predicate Current(h: Handler, published: map<Id, Props>) {
    forall id | id in h.matches :: id in published && h.matches[id].props == published[id]
  }

  /** An addition keeps what is cached, the agreement with recomputation, and the listener's view. */
  lemma AddedKeeps(judge: Judge, h: Handler, published: map<Id, Props>, id: Id, p: Props)
    requires Current(h, published) && id !in published
    ensures Current(OnAdded(judge, h, id, p), published[id := p])
    ensures Cached(judge, h, published) ==> Cached(judge, OnAdded(judge, h, id, p), published[id := p])
    ensures Informed(h) ==> Informed(OnAdded(judge, h, id, p))
  {
    RecomputedChange(judge, h.filters, published, id, p);
    match FirstMatch(judge, h.filters, p)
    case Some(f) =>
      if Informed(h) {
        TellKeeps(h, Put(h, id, p, f), Added(id, p, f));
      }
    case None =>
      assert h.matches - {id} == h.matches;
  }

  /** So does a removal. */
  lemma RemovedKeeps(judge: Judge, h: Handler, published: map<Id, Props>, id: Id)
    requires Current(h, published)
    ensures Current(OnRemoved(h, id), published - {id})
    ensures Cached(judge, h, published) ==> Cached(judge, OnRemoved(h, id), published - {id})
    ensures Informed(h) ==> Informed(OnRemoved(h, id))
  {
    RecomputedChange(judge, h.filters, published, id, map[]);
    if id in h.matches {
      if Informed(h) {
        TellKeeps(h, Drop(h, id), Removed(id, h.matches[id].filter));
      }
    } else {
      assert h.matches - {id} == h.matches;
    }
  }

  /** The one step that leaves a listener uninformed: no filter matches the cached endpoint any more. */
  predicate Silent(judge: Judge, h: Handler, id: Id, p: Props) {
    id in h.matches && forall f <- h.filters :: !judge(f, p)
  }

  lemma SilentIs(judge: Judge, h: Handler, id: Id, p: Props)
    ensures Silent(judge, h, id, p) <==> id in h.matches && FirstMatch(judge, h.filters, p).None?
  {
    FirstMatchIs(judge, h.filters, p);
  }

  /** A modification always keeps what is cached and the agreement with recomputation. */
  lemma ModifiedCached(judge: Judge, h: Handler, published: map<Id, Props>, id: Id, p: Props)
    requires Current(h, published) && id in published
    ensures Current(OnModified(judge, h, id, p), published[id := p])
    ensures Cached(judge, h, published) ==> Cached(judge, OnModified(judge, h, id, p), published[id := p])
  {
    RecomputedChange(judge, h.filters, published, id, p);
  }

  /** It keeps the listener informed if and only if it does not end a match. */
  lemma ModifiedInformed(judge: Judge, h: Handler, id: Id, p: Props)
    requires Informed(h)
    ensures Informed(OnModified(judge, h, id, p)) <==> !Silent(judge, h, id, p)
  {
    SilentIs(judge, h, id, p);
    match FirstMatch(judge, h.filters, p)
    case Some(f) =>
      TellKeeps(h, Put(h, id, p, f), if id in h.matches then Modified(id, p, f) else Added(id, p, f));
    case None =>
      if id in h.matches {
        assert id !in h.matches - {id};
      } else {
        assert h.matches - {id} == h.matches;
      }
  }

  /** After a silent end of a match, the next modification that matches again announces an
      endpoint the listener still believes present: the stream is no longer well formed. */
  lemma SilenceBreaksStream(judge: Judge, h: Handler, id: Id, p: Props, q: Props)
    requires Informed(h) && Silent(judge, h, id, p) && exists f <- h.filters :: judge(f, q)
    ensures Listen(OnModified(judge, OnModified(judge, h, id, p), id, q).told).None?
  {
    SilentIs(judge, h, id, p);
    FirstMatchIs(judge, h.filters, q);
    var f := FirstMatch(judge, h.filters, q).value;
    ListenOne(h.told, Added(id, q, f));
  }

  /** The entry an endpoint should have. */
  predicate Settled(judge: Judge, h: Handler, id: Id, p: Props) {
    match FirstMatch(judge, h.filters, p)
    case Some(f) => id in h.matches && h.matches[id] == Match(p, f)
    case None => id !in h.matches
  }

  predicate SameElsewhere(g: Handler, h: Handler, id: Id) {
    g.matches - {id} == h.matches - {id}
  }

  lemma SettledElsewhere(judge: Judge, g: Handler, h: Handler, id: Id, x: Id, p: Props)
    requires SameElsewhere(g, h, id) && x != id && g.filters == h.filters && Settled(judge, h, x, p)
    ensures Settled(judge, g, x, p)
  {
    assert x in g.matches <==> x in g.matches - {id};
    assert x in h.matches <==> x in h.matches - {id};
    assert x in h.matches ==> (h.matches - {id})[x] == h.matches[x];
  }

  lemma ReconsiderKeeps(judge: Judge, h: Handler, published: map<Id, Props>, id: Id, informed: bool)
    requires Current(h, published) && id in published && (informed ==> Informed(h))
    ensures var g := Reconsider(judge, h, id, published[id]);
            && Current(g, published) && Settled(judge, g, id, published[id])
            && g.filters == h.filters && g.kind == h.kind && (informed ==> Informed(g))
            && SameElsewhere(g, h, id)
  {
    var p := published[id];
    match FirstMatch(judge, h.filters, p)
    case Some(f) =>
      if id !in h.matches {
        if informed {
          TellKeeps(h, Put(h, id, p, f), Added(id, p, f));
        }
      } else if f != h.matches[id].filter && informed {
        TellKeeps(h, Put(h, id, p, f), Modified(id, p, f));
      }
    case None =>
      if id in h.matches {
        if informed {
          TellKeeps(h, Drop(h, id), Endmatch(id, h.matches[id].filter));
        }
      }
  }

  lemma {:induction false} ReconsiderAllKeeps(
      judge: Judge, h: Handler, published: map<Id, Props>, order: seq<Id>, informed: bool)
    requires Current(h, published) && (forall id <- order :: id in published) && (informed ==> Informed(h))
    ensures var g := ReconsiderAll(judge, h, published, order);
            && Current(g, published) && g.filters == h.filters && g.kind == h.kind
            && (informed ==> Informed(g))
            && forall id <- order :: Settled(judge, g, id, published[id])
  {
    if order != [] {
      var before, id := order[..|order| - 1], order[|order| - 1];
      ReconsiderAllKeeps(judge, h, published, before, informed);
      var mid := ReconsiderAll(judge, h, published, before);
      var g := ReconsiderAll(judge, h, published, order);
      ReconsiderKeeps(judge, mid, published, id, informed);
      forall x <- order
        ensures Settled(judge, g, x, published[x])
      {
        if x != id {
          assert x in before;
          SettledElsewhere(judge, g, mid, id, x, published[x]);
        }
      }
    }
  }

  lemma ScopeKeeps(
      judge: Judge, h: Handler, filters: seq<Filter>, published: map<Id, Props>, order: seq<Id>, informed: bool)
    requires Current(h, published) && (informed ==> Informed(h))
    requires forall id :: id in order <==> id in published
    ensures var g := OnScope(judge, h, Some(filters), published, order);
            Cached(judge, g, published) && g.filters == filters && (informed ==> Informed(g))
  {
    var h' := h.(filters := filters);
    ReconsiderAllKeeps(judge, h', published, order, informed);
    var g := ReconsiderAll(judge, h', published, order);
    forall id
      ensures id in g.matches <==> id in Recomputed(judge, filters, published)
      ensures id in g.matches ==> g.matches[id] == Recomputed(judge, filters, published)[id]
    {
      assert id in published ==> Settled(judge, g, id, published[id]);
    }
  }

  /** A scope that does not parse leaves the cache in agreement if and only if it was empty. */
  lemma BadScope(judge: Judge, h: Handler, published: map<Id, Props>)
    ensures Cached(judge, OnScope(judge, h, None, published, []), published) <==> h.matches == map[]
  {
    assert Recomputed(judge, [], published) == map[];
  }

  /** A view without the endpoints of a list. */
  function Forgotten(v: View, order: seq<Id>): View {
    if order == [] then v else Forgotten(v, order[..|order| - 1]) - {order[|order| - 1]}
  }

  lemma {:induction false} ForgottenKeys(v: View, order: seq<Id>, id: Id)
    ensures id in Forgotten(v, order) <==> id in v && id !in order
  {
    if order != [] {
      ForgottenKeys(v, order[..|order| - 1], id);
      assert order == order[..|order| - 1] + [order[|order| - 1]];
    }
  }

  /** What a leaving listener makes of the removals: the stream goes on making sense if and only if
      it did and it believed in every endpoint that is removed. */
  lemma {:induction false} FarewellHeard(h: Handler, order: seq<Id>)
    requires (forall id <- order :: id in h.matches) && Distinct(order)
    ensures Listen(Farewell(h, order).told)
         == if Listen(h.told).Some? && forall id <- order :: id in Listen(h.told).value
            then Some(Forgotten(Listen(h.told).value, order)) else None
  {
    if order != [] {
      var before, id := order[..|order| - 1], order[|order| - 1];
      assert order == before + [id] && id !in before;
      FarewellHeard(h, before);
      if Listen(h.told).Some? {
        ForgottenKeys(Listen(h.told).value, before, id);
      }
      var n := Removed(id, h.matches[id].filter);
      assert Calls(Farewell(h, before).kind, n) == [n];
      ListenOne(Farewell(h, before).told, n);
    }
  }

  /** A listener that leaves believes nothing any more if and only if its stream made sense and it
      believed in exactly the cached endpoints. */
  lemma FarewellEmpty(h: Handler, order: seq<Id>)
    requires Distinct(order) && forall id :: id in order <==> id in h.matches
    ensures Listen(Farewell(h, order).told) == Some(map[])
       <==> Listen(h.told).Some? && Listen(h.told).value.Keys == h.matches.Keys
  {
    FarewellHeard(h, order);
    if Listen(h.told).Some? {
      var v := Listen(h.told).value;
      forall id
        ensures id in Forgotten(v, order) <==> id in v && id !in h.matches
      {
        ForgottenKeys(v, order, id);
      }
      assert Forgotten(v, order) == map[] <==> forall id | id in v :: id in h.matches;
    }
  }

  // ---- A misled listener never recovers -----------------------------------------------------------

  /** The listener believes in an endpoint the cache dropped, or its stream made no sense. */
  predicate Misled(h: Handler, x: Id) {
    Listen(h.told).Some? ==> x in Listen(h.told).value && x !in h.matches
  }

  lemma MisledTell(h: Handler, g: Handler, n: Note, x: Id)
    requires Misled(h, x) && g.told == h.told
    requires Listen(h.told).Some? ==> (x == n.id ==> n.Added?) && (x in g.matches ==> x == n.id)
    ensures Misled(Tell(g, n), x)
  {
    var calls := Calls(g.kind, n);
    ListenOne(h.told, calls[0]);
    if |calls| == 2 {
      ListenOne(h.told + [calls[0]], calls[1]);
      assert h.told + [calls[0]] + [calls[1]] == h.told + calls;
    } else {
      assert calls == [calls[0]];
    }
  }

  lemma AddedMisled(judge: Judge, h: Handler, id: Id, p: Props, x: Id)
    requires Misled(h, x)
    ensures Misled(OnAdded(judge, h, id, p), x)
  {
    match FirstMatch(judge, h.filters, p)
    case Some(f) => MisledTell(h, Put(h, id, p, f), Added(id, p, f), x);
    case None =>
  }

  lemma RemovedMisled(h: Handler, id: Id, x: Id)
    requires Misled(h, x)
    ensures Misled(OnRemoved(h, id), x)
  {
    if id in h.matches {
      MisledTell(h, Drop(h, id), Removed(id, h.matches[id].filter), x);
    }
  }

  lemma ModifiedMisled(judge: Judge, h: Handler, id: Id, p: Props, x: Id)
    requires Misled(h, x)
    ensures Misled(OnModified(judge, h, id, p), x)
  {
    match FirstMatch(judge, h.filters, p)
    case Some(f) =>
      MisledTell(h, Put(h, id, p, f), if id in h.matches then Modified(id, p, f) else Added(id, p, f), x);
    case None =>
  }

  lemma ReconsiderMisled(judge: Judge, h: Handler, id: Id, p: Props, x: Id)
    requires Misled(h, x)
    ensures Misled(Reconsider(judge, h, id, p), x)
  {
    match FirstMatch(judge, h.filters, p)
    case Some(f) =>
      if id !in h.matches {
        MisledTell(h, Put(h, id, p, f), Added(id, p, f), x);
      } else if f != h.matches[id].filter {
        MisledTell(h, h.(matches := h.matches[id := h.matches[id].(filter := f)]), Modified(id, p, f), x);
      }
    case None =>
      if id in h.matches {
        MisledTell(h, Drop(h, id), Endmatch(id, h.matches[id].filter), x);
      }
  }

  lemma {:induction false} ReconsiderAllMisled(
      judge: Judge, h: Handler, published: map<Id, Props>, order: seq<Id>, x: Id)
    requires Misled(h, x) && forall id <- order :: id in published
    ensures Misled(ReconsiderAll(judge, h, published, order), x)
  {
    if order != [] {
      var before, id := order[..|order| - 1], order[|order| - 1];
      ReconsiderAllMisled(judge, h, published, before, x);
      ReconsiderMisled(judge, ReconsiderAll(judge, h, published, before), id, published[id], x);
    }
  }

  // ---- The component ------------------------------------------------------------------------------

  type Ref = nat

  datatype State = State(published: map<Id, Props>, handlers: map<Ref, Handler>)

  datatype Task =
    | EndpointAdded(id: Id, props: Props)
    | EndpointRemoved(id: Id)
    | EndpointModified(id: Id, props: Props)
    | ListenerAdded(ref: Ref, kind: Kind, scope: Option<seq<Filter>>, order: seq<Id>)
    | ListenerModified(ref: Ref, scope: Option<seq<Filter>>, order: seq<Id>)
    | ListenerRemoved(ref: Ref, order: seq<Id>)

  /** The order in which a task happens to visit a hash table is complete. */
  ghost predicate Orders(s: State, t: Task) {
    match t
    case ListenerAdded(_, _, _, order) => forall id :: id in order <==> id in s.published
    case ListenerModified(ref, _, order) => ref in s.handlers ==> forall id :: id in order <==> id in s.published
    case ListenerRemoved(ref, order) =>
      ref in s.handlers ==> Distinct(order) && forall id :: id in order <==> id in s.handlers[ref].matches
    case _ => true
  }

  function Each(handlers: map<Ref, Handler>, f: Handler -> Handler): map<Ref, Handler> {
    map r | r in handlers :: f(handlers[r])
  }

  /** With the listeners to do still as they were. */
  function Partly(handlers: map<Ref, Handler>, todo: set<Ref>, f: Handler -> Handler): map<Ref, Handler> {
    map r | r in handlers :: if r in todo then handlers[r] else f(handlers[r])
  }

  lemma PartlyNext(handlers: map<Ref, Handler>, todo: set<Ref>, f: Handler -> Handler, r: Ref)
    requires r in todo && r in handlers
    ensures r in Partly(handlers, todo, f) && Partly(handlers, todo, f)[r] == handlers[r]
    ensures Partly(handlers, todo - {r}, f) == Partly(handlers, todo, f)[r := f(handlers[r])]
  {
  }

  lemma PartlyEnds(handlers: map<Ref, Handler>, f: Handler -> Handler)
    ensures Partly(handlers, handlers.Keys, f) == handlers && Partly(handlers, {}, f) == Each(handlers, f)
  {
  }

  /** A handler for a reference that is already known replaces the previous one, but speaks to the
      same listener. */
  function NewHandler(s: State, r: Ref, kind: Kind): Handler {
    Handler(kind, [], map[], if r in s.handlers then s.handlers[r].told else [])
  }

  function Do(judge: Judge, s: State, t: Task): State
    requires Orders(s, t)
  {
    match t
    case EndpointAdded(id, p) =>
      if id in s.published then s else
      State(s.published[id := p], Each(s.handlers, h => OnAdded(judge, h, id, p)))
    case EndpointRemoved(id) =>
      if id !in s.published then s else
      State(s.published - {id}, Each(s.handlers, h => OnRemoved(h, id)))
    case EndpointModified(id, p) =>
      if id !in s.published then s else
      State(s.published[id := p], Each(s.handlers, h => OnModified(judge, h, id, p)))
    case ListenerAdded(r, kind, scope, order) =>
      if scope.None? then s else
      s.(handlers := s.handlers[r := OnScope(judge, NewHandler(s, r, kind), scope, s.published, order)])
    case ListenerModified(r, scope, order) =>
      if r !in s.handlers then s else
      s.(handlers := s.handlers[r := OnScope(judge, s.handlers[r], scope, s.published, order)])
    case ListenerRemoved(r, _) => s.(handlers := s.handlers - {r})
  }

  // ---- Agreement of the cache -----------------------------------------------------------------------

  /** Whether the cache of listener r agrees with recomputation after one more task, exactly: a scope
      that does not parse spoils it unless the cache is empty; a good scope repairs it, and so does
      the loss of the last cached endpoint. */
  predicate Agrees(s: State, t: Task, r: Ref, agrees: bool) {
    match t
    case EndpointAdded(_, _) => agrees
    case EndpointRemoved(id) => agrees || Last(s, r, id)
    case EndpointModified(id, _) => agrees || Last(s, r, id)
    case ListenerAdded(x, _, scope, _) => agrees || (x == r && scope.Some?)
    case ListenerModified(x, scope, _) =>
      if x == r && r in s.handlers then scope.Some? || s.handlers[r].matches == map[] else agrees
    case ListenerRemoved(x, _) => agrees || x == r
  }

  /** No other endpoint is cached. */
  predicate Last(s: State, r: Ref, id: Id) {
    id in s.published && r in s.handlers && s.handlers[r].matches.Keys <= {id}
  }

  ghost predicate Tidy(judge: Judge, s: State, r: Ref, agrees: bool) {
    if r !in s.handlers then agrees
    else
      && Current(s.handlers[r], s.published) && (agrees <==> Cached(judge, s.handlers[r], s.published))
      && (agrees || s.handlers[r].filters == [])
  }

  /** Without filters, only the empty cache agrees. */
  lemma UnfilteredCached(judge: Judge, h: Handler, published: map<Id, Props>)
    requires h.filters == []
    ensures Cached(judge, h, published) <==> h.matches == map[]
  {
    assert Recomputed(judge, [], published) == map[];
  }

  lemma EmptyWithout(m: map<Id, Match>, id: Id)
    ensures m - {id} == map[] <==> m.Keys <= {id}
  {
    assert forall x | x in m && x != id :: x in m - {id};
  }

  lemma EndpointTidy(judge: Judge, s: State, t: Task, r: Ref, agrees: bool)
    requires Tidy(judge, s, r, agrees) && r in s.handlers && (t.EndpointRemoved? || t.EndpointModified?)
    requires t.id in s.published
    ensures Tidy(judge, Do(judge, s, t), r, Agrees(s, t, r, agrees))
  {
    var h, s' := s.handlers[r], Do(judge, s, t);
    if t.EndpointRemoved? {
      RemovedKeeps(judge, h, s.published, t.id);
    } else {
      ModifiedCached(judge, h, s.published, t.id, t.props);
    }
    if !agrees {
      UnfilteredCached(judge, h, s.published);
      UnfilteredCached(judge, s'.handlers[r], s'.published);
      EmptyWithout(h.matches, t.id);
      if t.EndpointRemoved? && t.id !in h.matches {
        assert h.matches - {t.id} == h.matches;
      }
    }
  }

  lemma TaskTidy(judge: Judge, s: State, t: Task, r: Ref, agrees: bool)
    requires Orders(s, t) && Tidy(judge, s, r, agrees)
    ensures Tidy(judge, Do(judge, s, t), r, Agrees(s, t, r, agrees))
  {
    match t
    case EndpointAdded(id, p) =>
      if r in s.handlers && id !in s.published {
        AddedKeeps(judge, s.handlers[r], s.published, id, p);
        if !agrees {
          UnfilteredCached(judge, s.handlers[r], s.published);
          UnfilteredCached(judge, s.handlers[r], s.published[id := p]);
        }
      }
    case EndpointRemoved(id) =>
      if r in s.handlers && id in s.published {
        EndpointTidy(judge, s, t, r, agrees);
      }
    case EndpointModified(id, p) =>
      if r in s.handlers && id in s.published {
        EndpointTidy(judge, s, t, r, agrees);
      }
    case ListenerAdded(x, kind, scope, order) =>
      if x == r && scope.Some? {
        var h := NewHandler(s, r, kind);
        ScopeKeeps(judge, h, scope.value, s.published, order, false);
        CachedCurrent(judge, OnScope(judge, h, scope, s.published, order), s.published);
      }
    case ListenerModified(x, scope, order) =>
      if x == r && r in s.handlers {
        if scope.Some? {
          ScopeKeeps(judge, s.handlers[r], scope.value, s.published, order, false);
          CachedCurrent(judge, OnScope(judge, s.handlers[r], scope, s.published, order), s.published);
        } else {
          UnfilteredCached(judge, s.handlers[r].(filters := []), s.published);
        }
      }
    case ListenerRemoved(_, _) =>
  }

  lemma CachedCurrent(judge: Judge, h: Handler, published: map<Id, Props>)
    requires Cached(judge, h, published)
    ensures Current(h, published)
  {
  }

  // ---- What a listener believes ----------------------------------------------------------------------

  /** Listener r loses a match without being told. */
  predicate Silences(judge: Judge, s: State, t: Task, r: Ref) {
    && t.EndpointModified? && t.id in s.published && r in s.handlers
    && Silent(judge, s.handlers[r], t.id, t.props)
  }

  /** Listener r is added again while it believes in something, which it will be told again. */
  predicate Repeats(s: State, t: Task, r: Ref) {
    t.ListenerAdded? && t.ref == r && t.scope.Some? && r in s.handlers && s.handlers[r].matches != map[]
  }

  /** Whether listener r is still free of silent ends and repetitions after one more task; a listener
      that leaves takes its history with it. */
  predicate Clear(judge: Judge, s: State, t: Task, r: Ref, clear: bool) {
    (t.ListenerRemoved? && t.ref == r) || (clear && !Silences(judge, s, t, r) && !Repeats(s, t, r))
  }

  ghost predicate Heard(s: State, r: Ref, clear: bool) {
    if r !in s.handlers then clear
    else if clear then Informed(s.handlers[r])
    else exists x :: Misled(s.handlers[r], x)
  }

  lemma ModifiedHeard(judge: Judge, s: State, id: Id, p: Props, r: Ref)
    requires Heard(s, r, true) && r in s.handlers && id in s.published
    ensures var t := EndpointModified(id, p); Heard(Do(judge, s, t), r, Clear(judge, s, t, r, true))
  {
    var h := s.handlers[r];
    SilentIs(judge, h, id, p);
    if Silent(judge, h, id, p) {
      assert Misled(OnModified(judge, h, id, p), id);
    } else {
      ModifiedInformed(judge, h, id, p);
    }
  }

  lemma AddedHeard(judge: Judge, s: State, t: Task, r: Ref)
    requires Orders(s, t) && Heard(s, r, true) && t.ListenerAdded? && t.ref == r && t.scope.Some?
    ensures Heard(Do(judge, s, t), r, Clear(judge, s, t, r, true))
  {
    var h := NewHandler(s, r, t.kind);
    if Repeats(s, t, r) {
      var x :| x in s.handlers[r].matches;
      assert Misled(h, x);
      ReconsiderAllMisled(judge, h.(filters := t.scope.value), s.published, t.order, x);
    } else {
      assert r in s.handlers ==> s.handlers[r].matches == map[];
      ScopeKeeps(judge, h, t.scope.value, s.published, t.order, true);
    }
  }

  lemma TaskMisled(judge: Judge, s: State, t: Task, r: Ref, x: Id)
    requires Orders(s, t) && r in s.handlers && Misled(s.handlers[r], x)
    requires !(t.ListenerRemoved? && t.ref == r)
    ensures var s' := Do(judge, s, t); r in s'.handlers && Misled(s'.handlers[r], x)
  {
    var h := s.handlers[r];
    match t
    case EndpointAdded(id, p) => AddedMisled(judge, h, id, p, x);
    case EndpointRemoved(id) => RemovedMisled(h, id, x);
    case EndpointModified(id, p) => ModifiedMisled(judge, h, id, p, x);
    case ListenerAdded(q, kind, scope, order) =>
      if q == r && scope.Some? {
        ReconsiderAllMisled(judge, NewHandler(s, r, kind).(filters := scope.value), s.published, order, x);
      }
    case ListenerModified(q, scope, order) =>
      if q == r && scope.Some? {
        ReconsiderAllMisled(judge, h.(filters := scope.value), s.published, order, x);
      }
    case ListenerRemoved(_, _) =>
  }

  lemma TaskHeard(judge: Judge, s: State, t: Task, r: Ref, clear: bool)
    requires Orders(s, t) && Heard(s, r, clear) && (r in s.handlers ==> Current(s.handlers[r], s.published))
    ensures Heard(Do(judge, s, t), r, Clear(judge, s, t, r, clear))
  {
    if !clear {
      if !(t.ListenerRemoved? && t.ref == r) {
        var x :| Misled(s.handlers[r], x);
        TaskMisled(judge, s, t, r, x);
      }
      return;
    }
    match t
    case EndpointAdded(id, p) =>
      if r in s.handlers && id !in s.published {
        AddedKeeps(judge, s.handlers[r], s.published, id, p);
      }
    case EndpointRemoved(id) =>
      if r in s.handlers {
        RemovedKeeps(judge, s.handlers[r], s.published, id);
      }
    case EndpointModified(id, p) =>
      if r in s.handlers && id in s.published {
        ModifiedHeard(judge, s, id, p, r);
      }
    case ListenerAdded(x, kind, scope, order) =>
      if x == r && scope.Some? {
        AddedHeard(judge, s, t, r);
      }
    case ListenerModified(x, scope, order) =>
      if x == r && r in s.handlers && scope.Some? {
        ScopeKeeps(judge, s.handlers[r], scope.value, s.published, order, true);
      }
    case ListenerRemoved(_, _) =>
  }

  // ---- Which notifications a task sends --------------------------------------------------------------

  /** A notification tells a change of the cache from h to g: an addition or modification carries the new
      entry, a removal or end of match the old filter; a removal means that the endpoint was withdrawn,
      an end of match that it is still published. */
  predicate Tells(h: Handler, g: Handler, n: Note, withdrawn: bool) {
    match n
    case Added(id, p, f) => id !in h.matches && id in g.matches && g.matches[id] == Match(p, f)
    case Modified(id, p, f) => id in h.matches && id in g.matches && g.matches[id] == Match(p, f)
    case Removed(id, f) => withdrawn && id in h.matches && id !in g.matches && h.matches[id].filter == f
    case Endmatch(id, f) => !withdrawn && id in h.matches && id !in g.matches && h.matches[id].filter == f
  }

  predicate SameAt(g: Handler, h: Handler, id: Id) {
    if id in h.matches then id in g.matches && g.matches[id] == h.matches[id] else id !in g.matches
  }

  /** From handler h to handler g, only fitting notifications about the given endpoints were added. */
  predicate TellsOnly(h: Handler, g: Handler, ids: seq<Id>, withdrawn: bool) {
    && h.told <= g.told
    && forall i | |h.told| <= i < |g.told| :: g.told[i].id in ids && Tells(h, g, g.told[i], withdrawn)
  }

  lemma ReconsiderTells(judge: Judge, h: Handler, mid: Handler, published: map<Id, Props>, before: seq<Id>, id: Id)
    requires h.kind.EventListener? && mid.kind == h.kind && id in published && Current(mid, published)
    requires TellsOnly(h, mid, before, false) && forall x | x !in before :: SameAt(mid, h, x)
    requires id in before ==> Settled(judge, mid, id, published[id])
    ensures var g := Reconsider(judge, mid, id, published[id]);
            TellsOnly(h, g, before + [id], false) && forall x | x !in before + [id] :: SameAt(g, h, x)
  {
    var g := Reconsider(judge, mid, id, published[id]);
    if id !in before {
      assert SameAt(mid, h, id);
      ReconsiderKeeps(judge, mid, published, id, false);
      forall x | x != id
        ensures SameAt(g, mid, x)
      {
        assert x in g.matches - {id} <==> x in mid.matches - {id};
        assert x in mid.matches ==> (mid.matches - {id})[x] == mid.matches[x];
      }
      assert |mid.told| <= |g.told| <= |mid.told| + 1 && mid.told <= g.told;
      forall i | |h.told| <= i < |g.told|
        ensures g.told[i].id in before + [id] && Tells(h, g, g.told[i], false)
      {
        if i < |mid.told| {
          assert g.told[i] == mid.told[i] && Tells(h, mid, mid.told[i], false);
          assert SameAt(g, mid, g.told[i].id);
        }
      }
    }
  }

  lemma {:induction false} ReconsiderAllTells(judge: Judge, h: Handler, published: map<Id, Props>, order: seq<Id>)
    requires h.kind.EventListener? && Current(h, published) && forall id <- order :: id in published
    ensures var g := ReconsiderAll(judge, h, published, order);
            && TellsOnly(h, g, order, false) && (forall x | x !in order :: SameAt(g, h, x))
  {
    if order != [] {
      var before, id := order[..|order| - 1], order[|order| - 1];
      assert order == before + [id];
      ReconsiderAllKeeps(judge, h, published, before, false);
      ReconsiderAllTells(judge, h, published, before);
      ReconsiderTells(judge, h, ReconsiderAll(judge, h, published, before), published, before, id);
    }
  }

  /** Every notification that a task sends to a registered listener tells a change of its cache, of the
      right kind and with the right filter. */
  lemma TaskTells(judge: Judge, s: State, t: Task, r: Ref)
    requires Orders(s, t) && r in s.handlers && !(t.ListenerRemoved? && t.ref == r)
    requires s.handlers[r].kind.EventListener? && Current(s.handlers[r], s.published)
    requires t.ListenerAdded? && t.ref == r ==> t.kind.EventListener?
    ensures var added := t.ListenerAdded? && t.ref == r && t.scope.Some?;
            var h := if added then NewHandler(s, r, t.kind) else s.handlers[r];
            var g := Do(judge, s, t).handlers[r];
            && s.handlers[r].told == h.told <= g.told
            && forall i | |h.told| <= i < |g.told| :: Tells(h, g, g.told[i], t.EndpointRemoved?)
  {
    match t
    case ListenerAdded(x, kind, scope, order) =>
      if x == r && scope.Some? {
        ReconsiderAllTells(judge, NewHandler(s, r, kind).(filters := scope.value), s.published, order);
      }
    case ListenerModified(x, scope, order) =>
      if x == r && scope.Some? {
        ReconsiderAllTells(judge, s.handlers[r].(filters := scope.value), s.published, order);
      }
    case _ =>
  }

  /** A listener that leaves is sent one removal per cached endpoint. */
  lemma {:induction false} FarewellTells(h: Handler, order: seq<Id>)
    requires forall id <- order :: id in h.matches
    ensures Farewell(h, order).told
         == h.told + seq(|order|, i requires 0 <= i < |order| => Removed(order[i], h.matches[order[i]].filter))
  {
    if order != [] {
      var before, id := order[..|order| - 1], order[|order| - 1];
      FarewellTells(h, before);
      assert Calls(h.kind, Removed(id, h.matches[id].filter)) == [Removed(id, h.matches[id].filter)];
    }
  }

  // ---- Runs ---------------------------------------------------------------------------------------

  ghost predicate CanRun(judge: Judge, s: State, run: seq<Task>)
    decreases |run|
  {
    run == [] || (Orders(s, run[0]) && CanRun(judge, Do(judge, s, run[0]), run[1..]))
  }

  function Run(judge: Judge, s: State, run: seq<Task>): State
    requires CanRun(judge, s, run)
    decreases |run|
  {
    if run == [] then s else Run(judge, Do(judge, s, run[0]), run[1..])
  }

  /** The tasks of a run taken together, as far as the cache of listener r is concerned. */
  predicate AgreesRun(judge: Judge, s: State, run: seq<Task>, r: Ref, agrees: bool)
    requires CanRun(judge, s, run)
    decreases |run|
  {
    if run == [] then agrees
    else AgreesRun(judge, Do(judge, s, run[0]), run[1..], r, Agrees(s, run[0], r, agrees))
  }

  /** No task of the run ended a match silently for listener r or repeated what it believes, since r
      last left. */
  predicate ClearRun(judge: Judge, s: State, run: seq<Task>, r: Ref, clear: bool)
    requires CanRun(judge, s, run)
    decreases |run|
  {
    if run == [] then clear
    else ClearRun(judge, Do(judge, s, run[0]), run[1..], r, Clear(judge, s, run[0], r, clear))
  }

  lemma {:induction false} RunKeeps(judge: Judge, s: State, run: seq<Task>, r: Ref, agrees: bool, clear: bool)
    requires CanRun(judge, s, run) && Tidy(judge, s, r, agrees) && Heard(s, r, clear)
    ensures Tidy(judge, Run(judge, s, run), r, AgreesRun(judge, s, run, r, agrees))
    ensures Heard(Run(judge, s, run), r, ClearRun(judge, s, run, r, clear))
    decreases |run|
  {
    if run != [] {
      var t := run[0];
      TaskTidy(judge, s, t, r, agrees);
      TaskHeard(judge, s, t, r, clear);
      RunKeeps(judge, Do(judge, s, t), run[1..], r, Agrees(s, t, r, agrees), Clear(judge, s, t, r, clear));
    }
  }

  /** A run goes on with any task whose orders are complete. */
  lemma {:induction false} RunExtends(judge: Judge, s: State, run: seq<Task>, t: Task)
    requires CanRun(judge, s, run)
    ensures CanRun(judge, s, run + [t]) <==> Orders(Run(judge, s, run), t)
    ensures Orders(Run(judge, s, run), t) ==> Run(judge, s, run + [t]) == Do(judge, Run(judge, s, run), t)
    decreases |run|
  {
    if run == [] {
      assert [] + [t] == [t] && [t][1..] == [];
    } else {
      RunExtends(judge, Do(judge, s, run[0]), run[1..], t);
      assert (run + [t])[1..] == run[1..] + [t];
    }
  }

  const START := State(map[], map[])

  // ---- What a run is about ------------------------------------------------------------------------

  function Find<K, V>(m: map<K, V>, k: K): Option<V> {
    if k in m then Some(m[k]) else None
  }

  /** What is published under a name after a run, going by the tasks that are about it alone. */
  function Standing(was: Option<Props>, run: seq<Task>, id: Id): Option<Props>
    decreases |run|
  {
    if run == [] then was else
    var now := match run[0]
      case EndpointAdded(x, p) => if x == id && was.None? then Some(p) else was
      case EndpointRemoved(x) => if x == id then None else was
      case EndpointModified(x, p) => if x == id && was.Some? then Some(p) else was
      case _ => was;
    Standing(now, run[1..], id)
  }

  datatype Registration = Registration(kind: Kind, filters: seq<Filter>)

  /** How a listener is registered after a run, going by the tasks that are about it alone. */
  function Registered(was: Option<Registration>, run: seq<Task>, r: Ref): Option<Registration>
    decreases |run|
  {
    if run == [] then was else
    var now := match run[0]
      case ListenerAdded(x, kind, scope, _) =>
        if x == r && scope.Some? then Some(Registration(kind, scope.value)) else was
      case ListenerModified(x, scope, _) =>
        if x == r && was.Some? then Some(was.value.(filters := if scope.Some? then scope.value else [])) else was
      case ListenerRemoved(x, _) => if x == r then None else was
      case _ => was;
    Registered(now, run[1..], r)
  }

  /** After every run the published endpoints are those added, and not removed since, with the properties
      they were added with or last modified to. */
  lemma {:induction false} PublishedAre(judge: Judge, s: State, run: seq<Task>, id: Id)
    requires CanRun(judge, s, run)
    ensures Find(Run(judge, s, run).published, id) == Standing(Find(s.published, id), run, id)
    decreases |run|
  {
    if run != [] {
      PublishedAre(judge, Do(judge, s, run[0]), run[1..], id);
    }
  }

  function RegistrationOf(h: Handler): Registration {
    Registration(h.kind, h.filters)
  }

  /** The listeners are those added with a scope that parses, and not removed since, with their last scope. */
  lemma {:induction false} ListenersAre(judge: Judge, s: State, run: seq<Task>, r: Ref)
    requires CanRun(judge, s, run)
    ensures var h := Find(Run(judge, s, run).handlers, r);
            (if h.Some? then Some(RegistrationOf(h.value)) else None)
            == Registered(if r in s.handlers then Some(RegistrationOf(s.handlers[r])) else None, run, r)
    decreases |run|
  {
    if run != [] {
      TaskRegisters(judge, s, run[0], r);
      ListenersAre(judge, Do(judge, s, run[0]), run[1..], r);
    }
  }

  lemma TaskRegisters(judge: Judge, s: State, t: Task, r: Ref)
    requires Orders(s, t)
    ensures var was := if r in s.handlers then Some(RegistrationOf(s.handlers[r])) else None;
            var s' := Do(judge, s, t);
            (if r in s'.handlers then Some(RegistrationOf(s'.handlers[r])) else None) == Registered(was, [t], r)
  {
    if t.ListenerAdded? && t.ref == r && t.scope.Some? {
      ReconsiderAllFilters(judge, NewHandler(s, r, t.kind).(filters := t.scope.value), s.published, t.order);
    } else if t.ListenerModified? && t.ref == r && r in s.handlers && t.scope.Some? {
      ReconsiderAllFilters(judge, s.handlers[r].(filters := t.scope.value), s.published, t.order);
    }
  }

  lemma {:induction false} ReconsiderAllFilters(judge: Judge, h: Handler, published: map<Id, Props>, order: seq<Id>)
    requires forall id <- order :: id in published
    ensures RegistrationOf(ReconsiderAll(judge, h, published, order)) == RegistrationOf(h)
  {
    if order != [] {
      ReconsiderAllFilters(judge, h, published, order[..|order| - 1]);
    }
  }

  /** After every run a listener's cache holds exactly the published endpoints that some filter of its
      scope matches, each with the first filter that does, if and only if no scope that did not parse
      has spoilt it since. */
  lemma CacheAgrees(judge: Judge, run: seq<Task>, r: Ref)
    requires CanRun(judge, START, run) && r in Run(judge, START, run).handlers
    ensures var s := Run(judge, START, run);
            Scoped(judge, s.handlers[r].matches, s.handlers[r].filters, s.published)
            <==> AgreesRun(judge, START, run, r, true)
  {
    var s := Run(judge, START, run);
    RunKeeps(judge, START, run, r, true, true);
    RecomputedIs(judge, s.handlers[r].matches, s.handlers[r].filters, s.published);
  }

  /** Every task but a scope that does not parse keeps the agreement. */
  predicate AllParse(run: seq<Task>) {
    forall i | 0 <= i < |run| :: run[i].ListenerModified? ==> run[i].scope.Some?
  }

  lemma {:induction false} ParsingAgrees(judge: Judge, s: State, run: seq<Task>, r: Ref)
    requires CanRun(judge, s, run) && AllParse(run)
    ensures AgreesRun(judge, s, run, r, true)
    decreases |run|
  {
    if run != [] {
      ParsingAgrees(judge, Do(judge, s, run[0]), run[1..], r);
    }
  }

  /** After every run, what a listener was told is well formed and has built up exactly what is cached
      for it if and only if no match of it has ended silently and no repetition confused it; and exactly
      the published endpoints that some filter of its scope matches, as published and with the first such
      filter, if and only if its cache agrees as well. */
  lemma ListenerInformed(judge: Judge, run: seq<Task>, r: Ref)
    requires CanRun(judge, START, run) && r in Run(judge, START, run).handlers
    ensures var s := Run(judge, START, run);
            var h := s.handlers[r];
            && (Listen(h.told) == Some(h.matches) <==> ClearRun(judge, START, run, r, true))
            && (Listen(h.told).Some? && Scoped(judge, Listen(h.told).value, h.filters, s.published)
                <==> ClearRun(judge, START, run, r, true) && AgreesRun(judge, START, run, r, true))
  {
    RunKeeps(judge, START, run, r, true, true);
    var s := Run(judge, START, run);
    var h := s.handlers[r];
    RecomputedIs(judge, h.matches, h.filters, s.published);
    if Listen(h.told).Some? {
      RecomputedIs(judge, Listen(h.told).value, h.filters, s.published);
    }
    if !ClearRun(judge, START, run, r, true) {
      var x :| Misled(h, x);
    }
    if !AgreesRun(judge, START, run, r, true) {
      UnfilteredCached(judge, h, s.published);
      assert Recomputed(judge, [], s.published) == map[];
      var x :| x in h.matches;
      if !ClearRun(judge, START, run, r, true) {
        var y :| Misled(h, y);
      }
    }
  }

  /** The stream of a listener that was never silenced or told anything twice consists, per endpoint,
      of words (ADDED MODIFIED* (REMOVED or ENDMATCH))*. */
  lemma ClearWorded(judge: Judge, run: seq<Task>, r: Ref)
    requires CanRun(judge, START, run) && r in Run(judge, START, run).handlers && ClearRun(judge, START, run, r, true)
    ensures Worded(Run(judge, START, run).handlers[r].told)
  {
    ListenerInformed(judge, run, r);
    ListenWords(Run(judge, START, run).handlers[r].told);
  }

  /** After every run, removing a listener leaves it believing nothing if and only if no match of it
      has ended silently and no repetition confused it. */
  lemma FarewellExactly(judge: Judge, run: seq<Task>, r: Ref, order: seq<Id>)
    requires CanRun(judge, START, run) && r in Run(judge, START, run).handlers && Distinct(order)
    requires forall id :: id in order <==> id in Run(judge, START, run).handlers[r].matches
    ensures Listen(Farewell(Run(judge, START, run).handlers[r], order).told) == Some(map[])
       <==> ClearRun(judge, START, run, r, true)
  {
    var h := Run(judge, START, run).handlers[r];
    RunKeeps(judge, START, run, r, true, true);
    FarewellEmpty(h, order);
    if ClearRun(judge, START, run, r, true) {
      assert Listen(h.told).value == h.matches;
    } else {
      var x :| Misled(h, x);
    }
  }

  // ---- The objects --------------------------------------------------------------------------------

  lemma Replaced(m: map<Id, Props>, id: Id, p: Props)
    ensures (m - {id})[id := p] == m[id := p]
  {
  }

  class ListenerHandler {
    const judge: Judge
    const kind: Kind
    var filters: seq<Filter>
    var matches: map<Id, Match>
    var told: seq<Note>

    ghost function Value(): Handler
      reads this
    {
      Handler(kind, filters, matches, told)
    }

    constructor (judge: Judge, kind: Kind, told: seq<Note>)
      ensures this.judge == judge && Value() == Handler(kind, [], map[], told)
    {
      this.judge, this.kind := judge, kind;
      filters, matches, this.told := [], map[], told;
    }

    method FirstMatchingFilter(p: Props) returns (f: Option<Filter>)
      ensures f == FirstMatch(judge, filters, p)
    {
      for i := 0 to |filters|
        invariant FirstMatch(judge, filters, p) == FirstMatch(judge, filters[i..], p)
      {
        if judge(filters[i], p) {
          return Some(filters[i]);
        }
        assert filters[i..][1..] == filters[i + 1..];
      }
      return None;
    }

    method Notify(n: Note)
      modifies `told
      ensures Value() == Tell(old(Value()), n)
    {
      told := told + Calls(kind, n);
    }

    method EndpointAdded(id: Id, p: Props)
      modifies this
      ensures Value() == OnAdded(judge, old(Value()), id, p)
    {
      var filter := FirstMatchingFilter(p);
      if filter.Some? {
        matches := matches[id := Match(p, filter.value)];
        Notify(Added(id, p, filter.value));
      }
    }

    method EndpointRemoved(id: Id)
      modifies this
      ensures Value() == OnRemoved(old(Value()), id)
    {
      if id in matches {
        var filter := matches[id].filter;
        matches := matches - {id};
        Notify(Removed(id, filter));
      }
    }

    method EndpointModified(id: Id, p: Props)
      modifies this
      ensures Value() == OnModified(judge, old(Value()), id, p)
    {
      var filter := FirstMatchingFilter(p);
      var previously := id in matches;
      matches := matches - {id};
      if filter.Some? {
        ghost var without := matches;
        matches := matches[id := Match(p, filter.value)];
        assert matches == old(matches)[id := Match(p, filter.value)];
        if previously {
          Notify(Modified(id, p, filter.value));
        } else {
          Notify(Added(id, p, filter.value));
        }
      }
    }

    /** One endpoint's turn in updateMatches. */
    method ReconsiderOne(id: Id, p: Props)
      modifies this
      ensures Value() == Reconsider(judge, old(Value()), id, p)
    {
      var filter := FirstMatchingFilter(p);
      if filter.Some? {
        if id !in matches {
          matches := matches[id := Match(p, filter.value)];
          Notify(Added(id, p, filter.value));
        } else if filter.value != matches[id].filter {
          matches := matches[id := matches[id].(filter := filter.value)];
          Notify(Modified(id, p, filter.value));
        }
      } else if id in matches {
        var previous := matches[id].filter;
        matches := matches - {id};
        Notify(Endmatch(id, previous));
      }
    }

    /** Replaces the filters and visits every published endpoint, in whatever order. */
    method ReferenceModified(scope: Option<seq<Filter>>, published: map<Id, Props>) returns (ghost order: seq<Id>)
      modifies this
      ensures forall id :: id in order <==> id in published
      ensures Value() == OnScope(judge, old(Value()), scope, published, order)
    {
      order := [];
      filters := if scope.Some? then scope.value else [];
      ghost var start := Value();
      var todo := published.Keys;
      while todo != {}
        invariant todo <= published.Keys && forall id :: id in order <==> id in published.Keys - todo
        invariant Value() == if scope.Some? then ReconsiderAll(judge, start, published, order) else start
        decreases todo
      {
        var id :| id in todo;
        if scope.Some? {
          ReconsiderOne(id, published[id]);
        }
        ghost var before := order;
        order := order + [id];
        assert order[..|order| - 1] == before;
        todo := todo - {id};
      }
    }

    /** Tells the listener that everything is gone and forgets the cache. */
    method ClearMatches() returns (ghost order: seq<Id>)
      modifies this
      ensures Distinct(order) && forall id :: id in order <==> id in old(matches)
      ensures matches == map[] && told == Farewell(old(Value()), order).told
    {
      order := [];
      var todo := matches.Keys;
      while todo != {}
        invariant todo <= matches.Keys && matches == old(matches) && filters == old(filters)
        invariant forall id :: id in order <==> id in matches.Keys - todo
        invariant Distinct(order)
        invariant Value() == Farewell(old(Value()), order)
        decreases todo
      {
        var id :| id in todo;
        Notify(Removed(id, matches[id].filter));
        ghost var before := order;
        assert forall i | 0 <= i < |before| :: before[i] in before;
        order := order + [id];
        assert order[..|order| - 1] == before;
        todo := todo - {id};
      }
      matches := map[];
    }
  }

  class Component {
    const judge: Judge
    var published: map<Id, Props>
    var listeners: map<Ref, ListenerHandler>

    ghost predicate Valid()
      reads this, listeners.Values
    {
      && (forall r | r in listeners :: listeners[r].judge == judge)
      && (forall r, q | r in listeners && q in listeners && r != q :: listeners[r] != listeners[q])
    }

    ghost function Value(): State
      reads this, listeners.Values
    {
      State(published, Handlers())
    }

    ghost function Handlers(): map<Ref, Handler>
      reads this, listeners.Values
    {
      map r | r in listeners :: listeners[r].Value()
    }

    constructor (judge: Judge)
      ensures Valid() && Value() == START && this.judge == judge
    {
      this.judge, published, listeners := judge, map[], map[];
    }

    method AddOne(r: Ref, id: Id, p: Props)
      requires Valid() && r in listeners
      modifies listeners[r]
      ensures Valid() && Handlers() == old(Handlers())[r := OnAdded(judge, old(Handlers())[r], id, p)]
    {
      listeners[r].EndpointAdded(id, p);
    }

    method AddAll(id: Id, p: Props)
      requires Valid()
      modifies listeners.Values
      ensures Valid()
      ensures Handlers() == Each(old(Handlers()), h => OnAdded(judge, h, id, p))
    {
      var todo := listeners.Keys;
      ghost var change := h => OnAdded(judge, h, id, p);
      ghost var was := Handlers();
      PartlyEnds(was, change);
      while todo != {}
        invariant Valid() && todo <= listeners.Keys
        invariant Handlers() == Partly(was, todo, change)
        decreases todo
      {
        var r :| r in todo;
        PartlyNext(was, todo, change, r);
        AddOne(r, id, p);
        todo := todo - {r};
      }
    }

    method RemoveOne(r: Ref, id: Id)
      requires Valid() && r in listeners
      modifies listeners[r]
      ensures Valid() && Handlers() == old(Handlers())[r := OnRemoved(old(Handlers())[r], id)]
    {
      listeners[r].EndpointRemoved(id);
    }

    method RemoveAll(id: Id)
      requires Valid()
      modifies listeners.Values
      ensures Valid()
      ensures Handlers() == Each(old(Handlers()), h => OnRemoved(h, id))
    {
      var todo := listeners.Keys;
      ghost var change := h => OnRemoved(h, id);
      ghost var was := Handlers();
      PartlyEnds(was, change);
      while todo != {}
        invariant Valid() && todo <= listeners.Keys
        invariant Handlers() == Partly(was, todo, change)
        decreases todo
      {
        var r :| r in todo;
        PartlyNext(was, todo, change, r);
        RemoveOne(r, id);
        todo := todo - {r};
      }
    }

    method ModifyOne(r: Ref, id: Id, p: Props)
      requires Valid() && r in listeners
      modifies listeners[r]
      ensures Valid() && Handlers() == old(Handlers())[r := OnModified(judge, old(Handlers())[r], id, p)]
    {
      listeners[r].EndpointModified(id, p);
    }

    method ModifyAll(id: Id, p: Props)
      requires Valid()
      modifies listeners.Values
      ensures Valid()
      ensures Handlers() == Each(old(Handlers()), h => OnModified(judge, h, id, p))
    {
      var todo := listeners.Keys;
      ghost var change := h => OnModified(judge, h, id, p);
      ghost var was := Handlers();
      PartlyEnds(was, change);
      while todo != {}
        invariant Valid() && todo <= listeners.Keys
        invariant Handlers() == Partly(was, todo, change)
        decreases todo
      {
        var r :| r in todo;
        PartlyNext(was, todo, change, r);
        ModifyOne(r, id, p);
        todo := todo - {r};
      }
    }

    /** Throws when the endpoint is already published. */
    method AddEndpoint(id: Id, p: Props)
      requires Valid()
      modifies this, listeners.Values
      ensures Valid() && Value() == Do(judge, old(Value()), EndpointAdded(id, p))
    {
      if id in published {
        return;
      }
      published := published[id := p];
      assert Handlers() == old(Handlers());
      AddAll(id, p);
    }

    /** Throws when the endpoint is not published. */
    method RemoveEndpoint(id: Id)
      requires Valid()
      modifies this, listeners.Values
      ensures Valid() && Value() == Do(judge, old(Value()), EndpointRemoved(id))
    {
      if id !in published {
        return;
      }
      published := published - {id};
      assert Handlers() == old(Handlers());
      RemoveAll(id);
    }

    /** Throws when the endpoint is not published. */
    method ModifyEndpoint(id: Id, p: Props)
      requires Valid()
      modifies this, listeners.Values
      ensures Valid() && Value() == Do(judge, old(Value()), EndpointModified(id, p))
    {
      if id !in published {
        return;
      }
      published := (published - {id})[id := p];
      Replaced(old(published), id, p);
      assert Handlers() == old(Handlers());
      ModifyAll(id, p);
    }

    method Register(r: Ref, handler: ListenerHandler)
      requires Valid() && handler.judge == judge && forall x | x in listeners :: listeners[x] != handler
      modifies `listeners
      ensures Valid() && Handlers() == old(Handlers())[r := handler.Value()]
    {
      listeners := listeners[r := handler];
    }

    /** A listener that is already known gets a new handler. */
    method AddListener(r: Ref, kind: Kind, scope: Option<seq<Filter>>) returns (ghost order: seq<Id>)
      requires Valid()
      modifies this
      ensures Orders(old(Value()), ListenerAdded(r, kind, scope, order))
      ensures Valid() && Value() == Do(judge, old(Value()), ListenerAdded(r, kind, scope, order))
    {
      var handler := new ListenerHandler(judge, kind, if r in listeners then listeners[r].told else []);
      order := handler.ReferenceModified(scope, published);
      assert Handlers() == old(Handlers());
      if scope.Some? {
        Register(r, handler);
      }
    }

    /** An unknown reference changes nothing. */
    method ModifyListener(r: Ref, scope: Option<seq<Filter>>) returns (ghost order: seq<Id>)
      requires Valid()
      modifies this, listeners.Values
      ensures Orders(old(Value()), ListenerModified(r, scope, order))
      ensures Valid() && Value() == Do(judge, old(Value()), ListenerModified(r, scope, order))
    {
      order := [];
      if r in listeners {
        order := listeners[r].ReferenceModified(scope, published);
      }
    }

    /** The listener's last notifications leave it believing nothing; an unknown reference changes
        nothing. */
    method RemoveListener(r: Ref) returns (ghost order: seq<Id>)
      requires Valid()
      modifies this, listeners.Values
      ensures Orders(old(Value()), ListenerRemoved(r, order))
      ensures Valid() && Value() == Do(judge, old(Value()), ListenerRemoved(r, order))
      ensures r in old(listeners) ==> old(listeners)[r].told == Farewell(old(Value()).handlers[r], order).told
    {
      order := [];
      if r !in listeners {
        assert listeners - {r} == listeners;
        return;
      }
      var handler := listeners[r];
      listeners := listeners - {r};
      order := handler.ClearMatches();
    }
  }
}
