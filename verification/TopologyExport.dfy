/** The export side of the wiring topology manager: export requests wait until a wiring admin
    takes them, and wiring admins come and go. */
module TopologyExport {
  import opened Wrappers

  datatype Admin = Admin(id: nat)

  datatype Endpoint = Endpoint(id: nat)

  type Props = map<string, string>

  datatype Status = Success | Failed | IllegalArgument | IllegalState

  // ---- Requests and admins ------------------------------------------------------------------------

  /** Properties that say which service asks, not what it asks for. */
  const SERVICE_KEYS: set<string> :=
    {"endpoint.framework.uuid", "service.id", "objectClass", "service.exported.interfaces"}

  const UNMATCHED_KEYS: set<string> := SERVICE_KEYS + {"requested.service", "type"}

  /** What the table of exported requests compares. */
  function Key(p: Props): Props {
    p - SERVICE_KEYS
  }

  predicate Meets(p: Props, reference: Props) {
    forall k | k in p && k !in UNMATCHED_KEYS :: k in reference && reference[k] == p[k]
  }

  /** What the table compares is everything but these four. */
  lemma KeyIs(p: Props, k: string)
    ensures k in Key(p)
       <==> k in p && k != "endpoint.framework.uuid" && k != "service.id" && k != "objectClass"
            && k != "service.exported.interfaces"
    ensures k in Key(p) ==> Key(p)[k] == p[k]
  {
  }

  /** Names with their values are looked for in the reference, apart from these six. */
  lemma MeetsIs(p: Props, reference: Props)
    ensures Meets(p, reference)
       <==> var relevant := p - {"endpoint.framework.uuid", "service.id", "objectClass", "service.exported.interfaces",
                                 "requested.service", "type"};
            relevant.Items <= reference.Items
  {
    var relevant := p - UNMATCHED_KEYS;
    assert UNMATCHED_KEYS == {"endpoint.framework.uuid", "service.id", "objectClass", "service.exported.interfaces",
                              "requested.service", "type"};
    if Meets(p, reference) {
      forall e | e in relevant.Items
        ensures e in reference.Items
      {
        assert e.0 in p && e.0 !in UNMATCHED_KEYS;
      }
    }
    if relevant.Items <= reference.Items {
      forall k | k in p && k !in UNMATCHED_KEYS
        ensures k in reference && reference[k] == p[k]
      {
        assert (k, p[k]) in relevant.Items;
      }
    }
  }

  /** Scans the properties in whatever order the hash table yields, up to the first mismatch. */
  method PropertiesMatch(p: Props, reference: Props) returns (matching: bool)
    ensures matching == Meets(p, reference)
  {
    matching := true;
    var todo := p.Keys;
    while todo != {} && matching
      invariant todo <= p.Keys
      invariant matching ==> Meets(p - todo, reference)
      invariant !matching ==> !Meets(p, reference)
      decreases todo
    {
      var k :| k in todo;
      todo := todo - {k};
      if k !in UNMATCHED_KEYS && (k !in reference || reference[k] != p[k]) {
        matching := false;
      }
    }
    assert matching ==> p - todo == p;
  }

  /** What happens outside while one event is handled: the admins' capabilities and answers, and
      whether announcing an endpoint succeeds.  The status of an announcement is that of the lock
      around the listener list; what the listeners answer is overwritten. */
  datatype World = World(
    props: Admin -> Option<Props>,
    endpoint: (Admin, Props) -> Option<Endpoint>,
    released: (Admin, Endpoint) -> bool,
    announced: Endpoint -> bool)

  datatype Outcome = Refused | Exported(endpoint: Endpoint) | Unannounced(endpoint: Endpoint)

  function Offer(w: World, a: Admin, p: Props): Outcome {
    if w.props(a).None? || !Meets(p, w.props(a).value) then Refused
    else match w.endpoint(a, Key(p))
      case None => Refused
      case Some(e) => if w.announced(e) then Exported(e) else Unannounced(e)
  }

  predicate Accepts(w: World, a: Admin, p: Props) {
    Offer(w, a, p).Exported?
  }

  /** An admin yields an endpoint if its capabilities hold all the request asks for and it is willing; it
      exports it if the endpoint can be announced. */
  lemma OfferIs(w: World, a: Admin, p: Props, e: Endpoint)
    ensures Offer(w, a, p) in {Exported(e), Unannounced(e)}
       <==> w.props(a).Some? && (p - UNMATCHED_KEYS).Items <= w.props(a).value.Items && w.endpoint(a, Key(p)) == Some(e)
    ensures Offer(w, a, p) == Exported(e) ==> w.announced(e)
    ensures Offer(w, a, p) == Unannounced(e) ==> !w.announced(e)
  {
    if w.props(a).Some? {
      MeetsIs(p, w.props(a).value);
    }
  }

  /** The admin's answer does not depend on who asks. */
  lemma OfferByKey(w: World, a: Admin, p: Props)
    ensures Key(Key(p)) == Key(p) && Offer(w, a, Key(p)) == Offer(w, a, p)
  {
    assert Key(Key(p)) == Key(p);
    forall reference: Props
      ensures Meets(Key(p), reference) == Meets(p, reference)
    {
    }
  }

  // ---- Looking up a request in the table --------------------------------------------------------------

  /** A hash of strings, how hashes are put together, and where that starts. */
  datatype Hashing<!T> = Hashing(of: string -> T, mix: (T, T) -> T, seed: T)

  /** Mixing can be undone, from either side, and changes places with other mixing. */
  predicate LawfulAt<T(==)>(h: Hashing<T>, a: T, b: T, c: T) {
    && h.mix(a, h.mix(b, c)) == h.mix(b, h.mix(a, c))
    && h.mix(a, h.mix(a, c)) == c && h.mix(h.mix(a, c), c) == a
  }

  /** What exclusive or has. */
  ghost predicate Lawful<T(!new)>(h: Hashing<T>) {
    forall a, b, c :: LawfulAt(h, a, b, c)
  }

  lemma Law<T(!new)>(h: Hashing<T>, a: T, b: T, c: T)
    requires Lawful(h)
    ensures h.mix(a, h.mix(b, c)) == h.mix(b, h.mix(a, c))
    ensures h.mix(a, h.mix(a, c)) == c && h.mix(h.mix(a, c), c) == a
  {
    assert LawfulAt(h, a, b, c);
  }

  /** The code's hashing, for whatever hash of strings. */
  function CodeHashing(of: string -> bv32): Hashing<bv32> {
    Hashing(of, Xored, 1216721012)
  }

  function Xored(a: bv32, b: bv32): bv32 {
    a ^ b
  }

  lemma CodeLawful(of: string -> bv32)
    ensures Lawful(CodeHashing(of))
  {
    forall a, b, c
      ensures LawfulAt(CodeHashing(of), a, b, c)
    {
      CodeLawfulAt(of, a, b, c);
    }
  }

  lemma CodeLawfulAt(of: string -> bv32, a: bv32, b: bv32, c: bv32)
    ensures LawfulAt(CodeHashing(of), a, b, c)
  {
    var h := CodeHashing(of);
    var bc, ac := Xored(b, c), Xored(a, c);
    assert h.mix(b, c) == bc && h.mix(a, c) == ac;
    assert h.mix(a, bc) == h.mix(b, ac) by { XorSwaps(a, b, c); }
    assert h.mix(a, ac) == c && h.mix(ac, c) == a by { XorUndone(a, c); }
  }

  lemma XorSwaps(a: bv32, b: bv32, c: bv32)
    ensures Xored(a, Xored(b, c)) == Xored(b, Xored(a, c))
  {
  }

  lemma XorUndone(a: bv32, c: bv32)
    ensures Xored(a, Xored(a, c)) == c && Xored(Xored(a, c), c) == a
  {
  }

  /** Mixes the hashes of all keys and values into a start value. */
  ghost function MixAll<T>(h: Hashing<T>, x: T, p: Props): T
    decreases |p|
  {
    if p == map[] then x
    else
      var k :| k in p;
      MixOne(h, k, p[k], MixAll(h, x, p - {k}))
  }

  function MixOne<T>(h: Hashing<T>, k: string, v: string, x: T): T {
    h.mix(h.of(k), h.mix(h.of(v), x))
  }

  lemma MixSwap<T(!new)>(h: Hashing<T>, k: string, v: string, l: string, w: string, x: T)
    requires Lawful(h)
    ensures MixOne(h, k, v, MixOne(h, l, w, x)) == MixOne(h, l, w, MixOne(h, k, v, x))
  {
    var a, b, c, d := h.of(k), h.of(v), h.of(l), h.of(w);
    Law(h, b, c, h.mix(d, x));
    Law(h, b, d, x);
    Law(h, a, c, h.mix(d, h.mix(b, x)));
    Law(h, a, d, h.mix(b, x));
  }

  lemma MixRemove<T(!new)>(h: Hashing<T>, x: T, p: Props, k: string)
    requires Lawful(h) && k in p
    ensures MixAll(h, x, p) == MixOne(h, k, p[k], MixAll(h, x, p - {k}))
    decreases |p|
  {
    var y :| y in p && MixAll(h, x, p) == MixOne(h, y, p[y], MixAll(h, x, p - {y}));
    if y != k {
      MixRemove(h, x, p - {y}, k);
      MixRemove(h, x, p - {k}, y);
      assert p - {y} - {k} == p - {k} - {y};
      MixSwap(h, y, p[y], k, p[k], MixAll(h, x, p - {k} - {y}));
    }
  }

  /** Whether hashes cancel out does not depend on where one starts. */
  lemma {:induction false} MixFrom<T(!new)>(h: Hashing<T>, x: T, y: T, p: Props)
    requires Lawful(h)
    ensures MixAll(h, x, p) == h.mix(h.mix(x, y), MixAll(h, y, p))
    decreases |p|
  {
    if p == map[] {
      Law(h, x, x, y);
    } else {
      var k :| k in p;
      MixRemove(h, x, p, k);
      MixRemove(h, y, p, k);
      MixFrom(h, x, y, p - {k});
      var d, rest := h.mix(x, y), MixAll(h, y, p - {k});
      Law(h, d, h.of(k), h.mix(h.of(p[k]), rest));
      Law(h, d, h.of(p[k]), rest);
    }
  }

  lemma MixCancels<T(!new)>(h: Hashing<T>, x: T, y: T, p: Props)
    requires Lawful(h)
    ensures MixAll(h, x, p) == x <==> MixAll(h, y, p) == y
  {
    var d := h.mix(x, y);
    MixFrom(h, x, y, p);
    Law(h, x, x, y);
    Law(h, d, d, MixAll(h, y, p));
    Law(h, d, d, y);
  }

  ghost function Hash<T>(h: Hashing<T>, p: Props): T {
    MixAll(h, h.seed, p)
  }

  /** The hashes of these properties cancel out. */
  ghost predicate Cancelling<T(!new)>(h: Hashing<T>, p: Props) {
    Hash(h, p) == h.seed
  }

  predicate Included(p: Props, q: Props) {
    forall k | k in p :: k in q && q[k] == p[k]
  }

  lemma {:induction false} MixSurplus<T(!new)>(h: Hashing<T>, x: T, p: Props, q: Props)
    requires Lawful(h) && Included(p, q)
    ensures MixAll(h, x, q) == MixAll(h, MixAll(h, x, p), q - p.Keys)
    decreases |q|
  {
    var surplus := q - p.Keys;
    assert forall k | k in q && k !in p :: k in surplus;
    if surplus == map[] {
      assert q == p;
    } else {
      var k :| k in surplus;
      MixSurplus(h, x, p, q - {k});
      MixRemove(h, x, q, k);
      MixRemove(h, MixAll(h, x, p), surplus, k);
      assert q - {k} - p.Keys == surplus - {k};
    }
  }

  /** Whether looking for p meets the stored request q: the hashes agree and, on this side only, every
      compared property of p is one of q. */
  ghost predicate Found<T(!new)>(h: Hashing<T>, p: Props, q: Props) {
    Hash(h, Key(p)) == Hash(h, Key(q)) && Included(Key(p), q)
  }

  /** Looking for p meets q if and only if q has every compared property of p and the hashes of the
      rest cancel out. */
  lemma FoundExactly<T(!new)>(h: Hashing<T>, p: Props, q: Props)
    requires Lawful(h)
    ensures Found(h, p, q) <==> Included(Key(p), Key(q)) && Cancelling(h, Key(q) - Key(p).Keys)
  {
    assert Included(Key(p), q) <==> Included(Key(p), Key(q));
    if Included(Key(p), Key(q)) {
      MixSurplus(h, h.seed, Key(p), Key(q));
      MixCancels(h, Hash(h, Key(p)), h.seed, Key(q) - Key(p).Keys);
    }
  }

  /** The look-up is equality of keys if and only if no stored request extends the one looked for by
      properties whose hashes cancel out. */
  lemma LookupExactly<T(!new)>(h: Hashing<T>, stored: set<Props>, p: Props)
    requires Lawful(h) && forall q | q in stored :: Key(q) == q
    ensures (forall q | q in stored :: Found(h, p, q) <==> q == Key(p))
       <==> (forall q | q in stored && q != Key(p) && Included(Key(p), q) :: !Cancelling(h, q - Key(p).Keys))
  {
    assert Key(Key(p)) == Key(p);
    assert Key(p) - Key(p).Keys == map[];
    forall q | q in stored
      ensures Found(h, p, q) <==> Included(Key(p), q) && Cancelling(h, q - Key(p).Keys)
    {
      FoundExactly(h, p, q);
    }
  }

  /** A property whose key is its value goes unnoticed. */
  lemma SelfValuedMeets<T(!new)>(h: Hashing<T>, p: Props, a: string)
    requires Lawful(h) && Key(p) == p && a !in p && a !in SERVICE_KEYS
    ensures Key(p[a := a]) == p[a := a] && Found(h, p, p[a := a])
  {
    var q := p[a := a];
    assert Key(q) == q;
    assert q - p.Keys == map[a := a];
    MixRemove(h, h.seed, map[a := a], a);
    assert map[a := a] - {a} == map[];
    Law(h, h.of(a), h.of(a), h.seed);
    FoundExactly(h, p, q);
  }

  // ---- The manager as a value -----------------------------------------------------------------------

  type Inner = map<Admin, Endpoint>

  type Table = map<Props, Inner>

  datatype State = State(admins: seq<Admin>, waiting: seq<Props>, exported: Table)

  /** The admins in order, up to the first that yields an endpoint. */
  function Served(w: World, admins: seq<Admin>, p: Props): Inner {
    if admins == [] then map[]
    else match Offer(w, admins[0], p)
      case Refused => Served(w, admins[1..], p)
      case Exported(e) => map[admins[0] := e]
      case Unannounced(_) => map[]
  }

  function OnExport(w: World, s: State, p: Props): State {
    if Key(p) in s.exported then s
    else if s.admins == [] then s.(waiting := s.waiting + [p])
    else s.(exported := s.exported[Key(p) := Served(w, s.admins, p)])
  }

  function OnRemove(s: State, p: Props): State {
    s.(exported := s.exported - {Key(p)})
  }

  /** What a new admin leaves waiting, in the order it was. */
  function Refusals(w: World, a: Admin, waiting: seq<Props>): seq<Props> {
    if waiting == [] then []
    else (if Accepts(w, a, waiting[0]) then [] else [waiting[0]]) + Refusals(w, a, waiting[1..])
  }

  function Widened(w: World, a: Admin, k: Props, inner: Inner): Inner {
    if Accepts(w, a, k) then inner[a := Offer(w, a, k).endpoint] else inner
  }

  function WidenedAll(w: World, a: Admin, exported: Table): Table {
    map k | k in exported :: Widened(w, a, k, exported[k])
  }

  /** The keys of the waiting requests that the admin takes. */
  function Taken(w: World, a: Admin, waiting: seq<Props>): set<Props> {
    set p | p in waiting && Accepts(w, a, p) :: Key(p)
  }

  function Grants(w: World, a: Admin, keys: set<Props>): Table {
    map k | k in keys && Accepts(w, a, k) :: map[a := Offer(w, a, k).endpoint]
  }

  function OnAdmin(w: World, s: State, a: Admin): State {
    State(s.admins + [a], Refusals(w, a, s.waiting),
          WidenedAll(w, a, s.exported) + Grants(w, a, Taken(w, a, s.waiting)))
  }

  function WithoutFirst(admins: seq<Admin>, a: Admin): seq<Admin> {
    if admins == [] then []
    else if admins[0] == a then admins[1..]
    else [admins[0]] + WithoutFirst(admins[1..], a)
  }

  function Narrowed(a: Admin, exported: Table): Table {
    map k | k in exported :: exported[k] - {a}
  }

  function OnAdminGone(s: State, a: Admin): State {
    State(WithoutFirst(s.admins, a), s.waiting, Narrowed(a, s.exported))
  }

  // ---- What holds of every reachable state -------------------------------------------------------------

  function Keys(waiting: seq<Props>): set<Props> {
    set p | p in waiting :: Key(p)
  }

  predicate Apart(waiting: seq<Props>) {
    forall i, j | 0 <= i < j < |waiting| :: Key(waiting[i]) != Key(waiting[j])
  }

  /** No request is in two places. */
  predicate OnePlace(s: State) {
    && Apart(s.waiting)
    && (forall p | p in s.waiting :: Key(p) !in s.exported)
  }

  /** The recorded admins are present. */
  predicate Present(s: State) {
    forall k, a | k in s.exported && a in s.exported[k] :: a in s.admins
  }

  predicate Inv(s: State) {
    OnePlace(s) && Present(s)
  }

  /** As long as answers do not change, every recorded endpoint is the admin's answer. */
  predicate Genuine(w: World, s: State) {
    forall k | k in s.exported :: Given(w, k, s.exported[k])
  }

  predicate Given(w: World, k: Props, inner: Inner) {
    forall a | a in inner :: Offer(w, a, k) == Exported(inner[a])
  }

  /** As long as answers do not change, a request waits only for an admin that is not there. */
  predicate NeedsWaiting(w: World, s: State) {
    forall p, a | p in s.waiting && a in s.admins :: !Accepts(w, a, p)
  }

  function Places(s: State): set<Props> {
    Keys(s.waiting) + s.exported.Keys
  }

  lemma {:induction false} ServedGenuine(w: World, admins: seq<Admin>, p: Props, a: Admin)
    requires a in Served(w, admins, p)
    ensures a in admins && Offer(w, a, Key(p)) == Exported(Served(w, admins, p)[a])
  {
    if Offer(w, admins[0], p).Refused? {
      ServedGenuine(w, admins[1..], p, a);
    } else {
      OfferByKey(w, a, p);
    }
  }

  /** An export request keeps every request in one place if and only if no request that asks
      for the same is waiting. */
  lemma ExportOnePlace(w: World, s: State, p: Props)
    requires OnePlace(s)
    ensures OnePlace(OnExport(w, s, p)) <==> Key(p) !in Keys(s.waiting)
    ensures Places(OnExport(w, s, p)) == Places(s) + {Key(p)}
  {
    var s' := OnExport(w, s, p);
    if s.admins == [] && Key(p) !in s.exported {
      assert s'.waiting[|s.waiting|] == p;
      assert forall i | 0 <= i < |s.waiting| :: s'.waiting[i] == s.waiting[i] && s.waiting[i] in s.waiting;
      assert Keys(s'.waiting) == Keys(s.waiting) + {Key(p)};
    }
  }

  lemma ExportKeeps(w: World, s: State, p: Props)
    requires Inv(s) && Key(p) !in Keys(s.waiting)
    ensures Inv(OnExport(w, s, p))
  {
    ExportOnePlace(w, s, p);
    forall a | a in Served(w, s.admins, p)
      ensures a in s.admins
    {
      ServedGenuine(w, s.admins, p, a);
    }
  }

  lemma RemoveKeeps(s: State, p: Props)
    requires Inv(s)
    ensures Inv(OnRemove(s, p)) && (Key(p) in s.exported ==> Places(OnRemove(s, p)) == Places(s) - {Key(p)})
    ensures Key(p) !in s.exported ==> OnRemove(s, p) == s
  {
    if Key(p) !in s.exported {
      assert s.exported - {Key(p)} == s.exported;
    }
  }

  lemma {:induction false} RefusalsAre(w: World, a: Admin, waiting: seq<Props>, p: Props)
    ensures p in Refusals(w, a, waiting) <==> p in waiting && !Accepts(w, a, p)
  {
    if waiting != [] {
      RefusalsAre(w, a, waiting[1..], p);
      assert waiting == [waiting[0]] + waiting[1..];
    }
  }

  lemma {:induction false} RefusalsApart(w: World, a: Admin, waiting: seq<Props>)
    requires Apart(waiting)
    ensures Apart(Refusals(w, a, waiting))
  {
    if waiting != [] {
      var rest := Refusals(w, a, waiting[1..]);
      RefusalsApart(w, a, waiting[1..]);
      forall i | 0 <= i < |rest|
        ensures Key(rest[i]) != Key(waiting[0])
      {
        RefusalsAre(w, a, waiting[1..], rest[i]);
      }
    }
  }

  lemma GrantsAre(w: World, a: Admin, waiting: seq<Props>, k: Props)
    ensures k in Grants(w, a, Taken(w, a, waiting)) <==> k in Taken(w, a, waiting)
  {
    if k in Taken(w, a, waiting) {
      var p :| p in waiting && Accepts(w, a, p) && Key(p) == k;
      OfferByKey(w, a, p);
    }
  }

  /** A new admin moves requests between the two places but neither loses nor makes any. */
  lemma AdminConserves(w: World, s: State, a: Admin)
    ensures Places(OnAdmin(w, s, a)) == Places(s)
  {
    var s' := OnAdmin(w, s, a);
    forall k
      ensures k in Places(s') <==> k in Places(s)
    {
      GrantsAre(w, a, s.waiting, k);
      if k in Keys(s'.waiting) {
        var p :| p in s'.waiting && Key(p) == k;
        RefusalsAre(w, a, s.waiting, p);
      }
      if k in Keys(s.waiting) {
        var p :| p in s.waiting && Key(p) == k;
        RefusalsAre(w, a, s.waiting, p);
      }
    }
  }

  lemma AdminOnePlace(w: World, s: State, a: Admin)
    requires OnePlace(s)
    ensures OnePlace(OnAdmin(w, s, a))
  {
    var s' := OnAdmin(w, s, a);
    RefusalsApart(w, a, s.waiting);
    forall p | p in s'.waiting
      ensures Key(p) !in s'.exported
    {
      RefusalsAre(w, a, s.waiting, p);
      GrantsAre(w, a, s.waiting, Key(p));
      if q :| q in s.waiting && Accepts(w, a, q) && Key(q) == Key(p) {
        OfferByKey(w, a, p);
        OfferByKey(w, a, q);
      }
    }
  }

  lemma AdminPresent(w: World, s: State, a: Admin)
    requires Present(s)
    ensures Present(OnAdmin(w, s, a))
  {
    var s' := OnAdmin(w, s, a);
    forall k, b | k in s'.exported && b in s'.exported[k]
      ensures b in s'.admins
    {
      if k in Grants(w, a, Taken(w, a, s.waiting)) {
        assert s'.exported[k] == map[a := Offer(w, a, k).endpoint];
      } else {
        assert s'.exported[k] == Widened(w, a, k, s.exported[k]);
      }
    }
  }

  lemma AdminKeeps(w: World, s: State, a: Admin)
    requires Inv(s)
    ensures Inv(OnAdmin(w, s, a))
  {
    AdminOnePlace(w, s, a);
    AdminPresent(w, s, a);
  }

  lemma {:induction false} WithoutFirstKeeps(admins: seq<Admin>, a: Admin, b: Admin)
    ensures b in WithoutFirst(admins, a) ==> b in admins
    ensures b != a && b in admins ==> b in WithoutFirst(admins, a)
  {
    if admins != [] {
      WithoutFirstKeeps(admins[1..], a, b);
      assert admins == [admins[0]] + admins[1..];
    }
  }

  lemma AdminGoneKeeps(s: State, a: Admin)
    requires Inv(s)
    ensures Inv(OnAdminGone(s, a)) && Places(OnAdminGone(s, a)) == Places(s)
  {
    forall b
      ensures b != a && b in s.admins ==> b in WithoutFirst(s.admins, a)
    {
      WithoutFirstKeeps(s.admins, a, b);
    }
  }

  // ---- Runs -----------------------------------------------------------------------------------------------

  datatype Event = Export(props: Props) | Remove(props: Props) | AdminCame(admin: Admin) | AdminWent(admin: Admin)

  /** An event and how the world answers while it is handled. */
  datatype Step = Step(world: World, event: Event)

  function Do(w: World, s: State, e: Event): State {
    match e
    case Export(p) => OnExport(w, s, p)
    case Remove(p) => OnRemove(s, p)
    case AdminCame(a) => OnAdmin(w, s, a)
    case AdminWent(a) => OnAdminGone(s, a)
  }

  /** No request asks for what another one is still waiting for. */
  predicate Different(s: State, e: Event) {
    e.Export? ==> Key(e.props) !in Keys(s.waiting)
  }

  function Run(s: State, run: seq<Step>): State
    decreases |run|
  {
    if run == [] then s else Run(Do(run[0].world, s, run[0].event), run[1..])
  }

  predicate DifferentRun(s: State, run: seq<Step>)
    decreases |run|
  {
    run == [] || (Different(s, run[0].event) && DifferentRun(Do(run[0].world, s, run[0].event), run[1..]))
  }

  /** A run in which no two requests ask for the same is one of these, whatever else happens in it. */
  lemma {:induction false} DistinctExports(s: State, run: seq<Step>)
    requires forall i | 0 <= i < |run| :: run[i].event.Export? ==> Key(run[i].event.props) !in Keys(s.waiting)
    requires forall i, j | 0 <= i < j < |run| && run[i].event.Export? && run[j].event.Export? ::
               Key(run[i].event.props) != Key(run[j].event.props)
    ensures DifferentRun(s, run)
    decreases |run|
  {
    if run != [] {
      var s', rest := Do(run[0].world, s, run[0].event), run[1..];
      forall i | 0 <= i < |rest| && rest[i].event.Export?
        ensures Key(rest[i].event.props) !in Keys(s'.waiting)
      {
        assert rest[i] == run[i + 1];
        WaitingComes(run[0].world, s, run[0].event, Key(rest[i].event.props));
      }
      DistinctExports(s', rest);
    }
  }

  lemma WaitingComes(w: World, s: State, e: Event, k: Props)
    ensures k in Keys(Do(w, s, e).waiting) ==> k in Keys(s.waiting) || (e.Export? && Key(e.props) == k)
  {
    if k in Keys(Do(w, s, e).waiting) {
      var p :| p in Do(w, s, e).waiting && Key(p) == k;
      if e.AdminCame? {
        RefusalsAre(w, e.admin, s.waiting, p);
      }
    }
  }

  /** The requests made and not yet removed; a removal counts once it is accepted, which it is
      not while the request waits. */
  function Live(s: State, live: set<Props>, run: seq<Step>): set<Props>
    decreases |run|
  {
    if run == [] then live else
    var now := match run[0].event
      case Export(p) => live + {Key(p)}
      case Remove(p) => if Key(p) in s.exported then live - {Key(p)} else live
      case _ => live;
    Live(Do(run[0].world, s, run[0].event), now, run[1..])
  }

  lemma StepKeeps(w: World, s: State, e: Event)
    requires Inv(s) && Different(s, e)
    ensures Inv(Do(w, s, e))
    ensures Places(Do(w, s, e))
         == match e
            case Export(p) => Places(s) + {Key(p)}
            case Remove(p) => if Key(p) in s.exported then Places(s) - {Key(p)} else Places(s)
            case _ => Places(s)
  {
    match e
    case Export(p) => ExportKeeps(w, s, p); ExportOnePlace(w, s, p);
    case Remove(p) => RemoveKeeps(s, p);
    case AdminCame(a) => AdminKeeps(w, s, a); AdminConserves(w, s, a);
    case AdminWent(a) => AdminGoneKeeps(s, a);
  }

  lemma {:induction false} RunKeeps(s: State, run: seq<Step>)
    requires Inv(s) && DifferentRun(s, run)
    ensures Inv(Run(s, run)) && Places(Run(s, run)) == Live(s, Places(s), run)
    decreases |run|
  {
    if run != [] {
      StepKeeps(run[0].world, s, run[0].event);
      RunKeeps(Do(run[0].world, s, run[0].event), run[1..]);
    }
  }

  const START := State([], [], map[])

  /** After every run, however the answers change in its course, each live request is in exactly one
      place, nothing else is in any, and only present admins are recorded. */
  lemma Conservation(run: seq<Step>)
    requires DifferentRun(START, run)
    ensures var s := Run(START, run);
            && Inv(s) && Keys(s.waiting) !! s.exported.Keys
            && Keys(s.waiting) + s.exported.Keys == Live(START, {}, run)
  {
    assert Places(START) == {};
    RunKeeps(START, run);
  }

  // ---- Runs with steady answers ---------------------------------------------------------------------------

  /** The world answers alike all through the run. */
  ghost predicate Steady(w: World, run: seq<Step>) {
    forall i | 0 <= i < |run| :: run[i].world == w
  }

  lemma ExportSteady(w: World, s: State, p: Props)
    requires Genuine(w, s) && NeedsWaiting(w, s)
    ensures Genuine(w, OnExport(w, s, p)) && NeedsWaiting(w, OnExport(w, s, p))
  {
    assert Given(w, Key(p), Served(w, s.admins, p)) by {
      forall a | a in Served(w, s.admins, p)
        ensures Offer(w, a, Key(p)) == Exported(Served(w, s.admins, p)[a])
      {
        ServedGenuine(w, s.admins, p, a);
      }
    }
  }

  lemma AdminSteady(w: World, s: State, a: Admin)
    requires Genuine(w, s) && NeedsWaiting(w, s)
    ensures Genuine(w, OnAdmin(w, s, a)) && NeedsWaiting(w, OnAdmin(w, s, a))
  {
    var s' := OnAdmin(w, s, a);
    forall k | k in s'.exported
      ensures Given(w, k, s'.exported[k])
    {
      if k in Grants(w, a, Taken(w, a, s.waiting)) {
        assert s'.exported[k] == map[a := Offer(w, a, k).endpoint];
      } else {
        assert s'.exported[k] == Widened(w, a, k, s.exported[k]);
      }
    }
    forall p, b | p in s'.waiting && b in s'.admins
      ensures !Accepts(w, b, p)
    {
      RefusalsAre(w, a, s.waiting, p);
    }
  }

  lemma StepSteady(w: World, s: State, e: Event)
    requires Genuine(w, s) && NeedsWaiting(w, s)
    ensures Genuine(w, Do(w, s, e)) && NeedsWaiting(w, Do(w, s, e))
  {
    match e
    case Export(p) => ExportSteady(w, s, p);
    case Remove(p) =>
    case AdminCame(a) => AdminSteady(w, s, a);
    case AdminWent(a) =>
      forall b
        ensures b in WithoutFirst(s.admins, a) ==> b in s.admins
      {
        WithoutFirstKeeps(s.admins, a, b);
      }
  }

  /** With steady answers, every recorded endpoint is the admin's answer and no present admin would
      take a request that waits, after every run. */
  lemma {:induction false} SteadyRun(w: World, s: State, run: seq<Step>)
    requires Steady(w, run) && Genuine(w, s) && NeedsWaiting(w, s)
    ensures Genuine(w, Run(s, run)) && NeedsWaiting(w, Run(s, run))
    decreases |run|
  {
    if run != [] {
      StepSteady(w, s, run[0].event);
      SteadyRun(w, Do(w, s, run[0].event), run[1..]);
    }
  }

  // ---- Requests without an admin ----------------------------------------------------------------------------

  ghost predicate Wanted(w: World, admins: seq<Admin>, k: Props) {
    exists a <- admins :: Accepts(w, a, k)
  }

  /** If the request is exported, some present admin serves it if any would. */
  ghost predicate Attended(w: World, s: State, k: Props) {
    k in s.exported && s.exported[k] == map[] ==> !Wanted(w, s.admins, k)
  }

  /** The first admin that yields an endpoint. */
  function FirstYield(w: World, admins: seq<Admin>, p: Props): (i: nat)
    ensures i <= |admins| && (i < |admins| ==> !Offer(w, admins[i], p).Refused?)
    ensures forall j | 0 <= j < i :: Offer(w, admins[j], p).Refused?
  {
    if admins == [] || !Offer(w, admins[0], p).Refused? then 0 else 1 + FirstYield(w, admins[1..], p)
  }

  /** The first endpoint that any admin yields cannot be announced, although an admin that would
      take the request is there: it is not asked any more. */
  ghost predicate Botched(w: World, admins: seq<Admin>, p: Props) {
    var i := FirstYield(w, admins, p);
    i < |admins| && Offer(w, admins[i], p).Unannounced? && Wanted(w, admins, Key(p))
  }

  lemma {:induction false} ServedEmpty(w: World, admins: seq<Admin>, p: Props)
    ensures Served(w, admins, p) == map[]
       <==> var i := FirstYield(w, admins, p); i == |admins| || Offer(w, admins[i], p).Unannounced?
    ensures FirstYield(w, admins, p) == |admins| ==> forall a <- admins :: Offer(w, a, p).Refused?
  {
    if admins != [] {
      if Offer(w, admins[0], p).Refused? {
        ServedEmpty(w, admins[1..], p);
        assert admins == [admins[0]] + admins[1..];
      } else if Offer(w, admins[0], p).Exported? {
        assert admins[0] in Served(w, admins, p);
      }
    }
  }

  /** Only the first admin that yields an endpoint serves, if that endpoint can be announced. */
  lemma {:induction false} ServedIs(w: World, admins: seq<Admin>, p: Props)
    ensures var i := FirstYield(w, admins, p);
            Served(w, admins, p)
            == if i < |admins| && Offer(w, admins[i], p).Exported?
               then map[admins[i] := Offer(w, admins[i], p).endpoint] else map[]
  {
    if admins != [] && Offer(w, admins[0], p).Refused? {
      ServedIs(w, admins[1..], p);
    }
  }

  /** Where a new request goes: it waits if there is no admin, and is recorded as exported otherwise, with
      or without an endpoint; one that is exported already changes nothing. */
  lemma ExportGoes(w: World, s: State, p: Props)
    ensures var s' := OnExport(w, s, p);
            && s'.admins == s.admins
            && (Key(p) in s.exported ==> s' == s)
            && (Key(p) !in s.exported && s.admins == [] ==> s'.waiting == s.waiting + [p] && s'.exported == s.exported)
            && (Key(p) !in s.exported && s.admins != [] ==>
                  && s'.waiting == s.waiting && s'.exported.Keys == s.exported.Keys + {Key(p)}
                  && s'.exported - {Key(p)} == s.exported && s'.exported[Key(p)] == Served(w, s.admins, p))
  {
  }

  /** An arrival adds the admin's own endpoints to what is exported and leaves all others. */
  lemma AdminAdds(w: World, s: State, a: Admin, k: Props)
    requires OnePlace(s) && k in s.exported
    ensures var s' := OnAdmin(w, s, a);
            && s'.admins == s.admins + [a] && k in s'.exported && s'.exported[k] - {a} == s.exported[k] - {a}
            && (if Accepts(w, a, k) then a in s'.exported[k] && s'.exported[k][a] == Offer(w, a, k).endpoint
                else s'.exported[k] == s.exported[k])
  {
    GrantsAre(w, a, s.waiting, k);
    assert k !in Taken(w, a, s.waiting);
    assert OnAdmin(w, s, a).exported[k] == Widened(w, a, k, s.exported[k]);
  }

  /** A waiting request that it takes becomes exported, with its endpoint alone. */
  lemma AdminTakes(w: World, s: State, a: Admin, p: Props)
    requires OnePlace(s) && p in s.waiting
    ensures var s' := OnAdmin(w, s, a);
            if Accepts(w, a, p) then Key(p) in s'.exported && s'.exported[Key(p)] == map[a := Offer(w, a, p).endpoint]
            else p in s'.waiting
  {
    GrantsAre(w, a, s.waiting, Key(p));
    OfferByKey(w, a, p);
    RefusalsAre(w, a, s.waiting, p);
    assert Accepts(w, a, p) ==> Key(p) in Taken(w, a, s.waiting);
  }

  /** A departure takes the first occurrence out of the list, and the admin's endpoints out of the table. */
  lemma {:induction false} WithoutFirstIs(admins: seq<Admin>, a: Admin, i: nat)
    requires i <= |admins| && (i < |admins| ==> admins[i] == a) && forall j | 0 <= j < i :: admins[j] != a
    ensures WithoutFirst(admins, a) == if i < |admins| then admins[..i] + admins[i + 1..] else admins
  {
    if 0 < i {
      WithoutFirstIs(admins[1..], a, i - 1);
      if i < |admins| {
        assert [admins[0]] + (admins[1..][..i - 1] + admins[1..][i..]) == admins[..i] + admins[i + 1..];
      }
    }
  }

  lemma DepartureTakes(s: State, a: Admin, k: Props, b: Admin)
    ensures var s' := OnAdminGone(s, a);
            && s'.waiting == s.waiting && s'.exported.Keys == s.exported.Keys
            && (k in s.exported ==>
                  && (b in s'.exported[k] <==> b in s.exported[k] && b != a)
                  && (b in s'.exported[k] ==> s'.exported[k][b] == s.exported[k][b]))
  {
  }

  /** What a new admin leaves waiting keeps its order. */
  lemma {:induction false} RefusalsOrder(w: World, a: Admin, waiting: seq<Props>, p: Props)
    ensures Refusals(w, a, waiting + [p]) == Refusals(w, a, waiting) + if Accepts(w, a, p) then [] else [p]
  {
    if waiting == [] {
      assert [] + [p] == [p] && [p][1..] == [];
    } else {
      RefusalsOrder(w, a, waiting[1..], p);
      assert (waiting + [p])[1..] == waiting[1..] + [p];
    }
  }

  /** A new export request is left unattended if and only if it is botched. */
  lemma ExportAttends(w: World, s: State, p: Props)
    requires Key(p) !in s.exported && s.admins != []
    ensures Attended(w, OnExport(w, s, p), Key(p)) <==> !Botched(w, s.admins, p)
  {
    ServedEmpty(w, s.admins, p);
    if FirstYield(w, s.admins, p) == |s.admins| && Wanted(w, s.admins, Key(p)) {
      var a :| a in s.admins && Accepts(w, a, Key(p));
      OfferByKey(w, a, p);
    }
  }

  /** Two admins, the first of which has an endpoint that cannot be announced. */
  lemma ExportStrands(w: World, a: Admin, b: Admin, p: Props)
    requires Offer(w, a, p).Unannounced? && Accepts(w, b, p)
    ensures var s := OnExport(w, State([a, b], [], map[]), p);
            Key(p) in s.exported && !Attended(w, s, Key(p))
  {
    OfferByKey(w, b, p);
    assert [a, b][1] == b;
    assert Botched(w, [a, b], p);
    ExportAttends(w, State([a, b], [], map[]), p);
  }

  /** A new admin makes up for an unattended request if and only if it takes it, and leaves none
      unattended that was not. */
  lemma AdminAttends(w: World, s: State, a: Admin, k: Props)
    requires OnePlace(s)
    ensures Attended(w, OnAdmin(w, s, a), k) <==> Attended(w, s, k) || Accepts(w, a, k)
  {
    var s' := OnAdmin(w, s, a);
    GrantsAre(w, a, s.waiting, k);
    forall x: Admin
      ensures x in s'.admins <==> x in s.admins || x == a
    {
    }
    if k in Taken(w, a, s.waiting) {
      assert k !in s.exported && a in s'.exported[k];
    } else if k in s.exported {
      assert s'.exported[k] == Widened(w, a, k, s.exported[k]);
      if Accepts(w, a, k) {
        assert a in s'.exported[k];
      } else {
        assert Wanted(w, s'.admins, k) <==> Wanted(w, s.admins, k);
      }
    }
  }

  /** The departure of an admin leaves a request unattended if and only if no other admin served it
      and one that would take it stays: nobody is asked again. */
  lemma DepartureStrands(w: World, s: State, a: Admin, k: Props)
    ensures Attended(w, OnAdminGone(s, a), k)
       <==> !(k in s.exported && s.exported[k].Keys <= {a} && Wanted(w, WithoutFirst(s.admins, a), k))
  {
    if k in s.exported {
      var left := s.exported[k] - {a};
      assert forall x | x in s.exported[k] && x != a :: x in left;
      assert left == map[] <==> s.exported[k].Keys <= {a};
    }
  }

  /** Whether one event leaves a request attended, exactly. */
  ghost predicate Attends(w: World, s: State, e: Event, k: Props, attended: bool) {
    match e
    case Export(p) =>
      if Key(p) == k && k !in s.exported && s.admins != [] then !Botched(w, s.admins, p) else attended
    case Remove(p) => attended || Key(p) == k
    case AdminCame(a) => attended || Accepts(w, a, k)
    case AdminWent(a) =>
      !(k in s.exported && s.exported[k].Keys <= {a} && Wanted(w, WithoutFirst(s.admins, a), k))
  }

  lemma StepAttends(w: World, s: State, e: Event, k: Props)
    requires OnePlace(s)
    ensures Attended(w, Do(w, s, e), k) <==> Attends(w, s, e, k, Attended(w, s, k))
  {
    match e
    case Export(p) =>
      if Key(p) == k && k !in s.exported && s.admins != [] {
        ExportAttends(w, s, p);
      }
    case Remove(p) =>
    case AdminCame(a) => AdminAttends(w, s, a, k);
    case AdminWent(a) => DepartureStrands(w, s, a, k);
  }

  /** The events of a run taken together, read off the guards of the single events. */
  ghost predicate AttendsRun(w: World, s: State, run: seq<Step>, k: Props, attended: bool)
    decreases |run|
  {
    if run == [] then attended
    else AttendsRun(w, Do(w, s, run[0].event), run[1..], k, Attends(w, s, run[0].event, k, attended))
  }

  lemma {:induction false} RunAttends(w: World, s: State, run: seq<Step>, k: Props)
    requires Inv(s) && DifferentRun(s, run) && Steady(w, run)
    ensures Attended(w, Run(s, run), k) <==> AttendsRun(w, s, run, k, Attended(w, s, k))
    decreases |run|
  {
    if run != [] {
      StepAttends(w, s, run[0].event, k);
      StepKeeps(w, s, run[0].event);
      RunAttends(w, Do(w, s, run[0].event), run[1..], k);
    }
  }

  /** A present admin serves the request. */
  ghost predicate ServedNow(w: World, s: State, k: Props) {
    k in s.exported && exists a <- s.admins :: a in s.exported[k] && Offer(w, a, k) == Exported(s.exported[k][a])
  }

  lemma AttendedServed(w: World, s: State, k: Props)
    requires Inv(s) && Genuine(w, s) && NeedsWaiting(w, s)
    ensures Attended(w, s, k) <==> (k in Places(s) && Wanted(w, s.admins, k) ==> ServedNow(w, s, k))
  {
    if k in Keys(s.waiting) && Wanted(w, s.admins, k) {
      var p :| p in s.waiting && Key(p) == k;
      var a :| a in s.admins && Accepts(w, a, k);
      OfferByKey(w, a, p);
    }
    if k in s.exported && s.exported[k] != map[] {
      var a :| a in s.exported[k];
      assert Given(w, k, s.exported[k]);
    }
  }

  /** After every run with steady answers, a live request that some present admin would take is served
      by a present admin, if and only if neither its export was botched nor a departure stranded it,
      unless an admin that came later took it. */
  lemma RequestAttended(w: World, run: seq<Step>, k: Props)
    requires DifferentRun(START, run) && Steady(w, run)
    ensures var s := Run(START, run);
            (k in Live(START, {}, run) && Wanted(w, s.admins, k) ==> ServedNow(w, s, k))
            <==> AttendsRun(w, START, run, k, true)
  {
    Conservation(run);
    RunAttends(w, START, run, k);
    SteadyRun(w, START, run);
    AttendedServed(w, Run(START, run), k);
  }

  // ---- The manager ------------------------------------------------------------------------------------------

  lemma {:induction false} RefusalsAppend(w: World, a: Admin, before: seq<Props>, after: seq<Props>)
    ensures Refusals(w, a, before + after) == Refusals(w, a, before) + Refusals(w, a, after)
  {
    if before == [] {
      assert before + after == after;
    } else {
      RefusalsAppend(w, a, before[1..], after);
      assert (before + after)[1..] == before[1..] + after;
    }
  }

  lemma {:induction false} AllRefused(w: World, a: Admin, waiting: seq<Props>)
    requires forall p <- waiting :: !Accepts(w, a, p)
    ensures Refusals(w, a, waiting) == waiting
  {
    if waiting != [] {
      AllRefused(w, a, waiting[1..]);
    }
  }

  lemma TakenOne(w: World, a: Admin, before: seq<Props>, p: Props, after: seq<Props>)
    requires Accepts(w, a, p)
    ensures Taken(w, a, before + [p] + after) == Taken(w, a, before + after) + {Key(p)}
  {
    assert forall x :: x in before + [p] + after <==> x in before + after || x == p;
  }

  lemma GrantsOne(w: World, a: Admin, keys: set<Props>, k: Props)
    requires Accepts(w, a, k)
    ensures Grants(w, a, keys + {k}) == Grants(w, a, keys)[k := map[a := Offer(w, a, k).endpoint]]
  {
  }

  lemma Swapped(t: Table, g: Table, k: Props, v: Inner)
    requires k in g ==> g[k] == v
    ensures t[k := v] + g == t + g[k := v]
  {
  }

  lemma RefusalsOne(w: World, a: Admin, before: seq<Props>, p: Props, after: seq<Props>)
    requires Accepts(w, a, p)
    ensures Refusals(w, a, before + [p] + after) == Refusals(w, a, before + after)
  {
    assert before + [p] + after == before + ([p] + after);
    RefusalsAppend(w, a, before, [p] + after);
    RefusalsAppend(w, a, before, after);
    assert ([p] + after)[1..] == after;
  }

  /** Taking one accepted request out of the list and into the table. */
  lemma DrainOne(w: World, a: Admin, before: seq<Props>, p: Props, after: seq<Props>, exported: Table)
    requires Accepts(w, a, p)
    ensures Refusals(w, a, before + after) == Refusals(w, a, before + [p] + after)
    ensures exported[Key(p) := map[a := Offer(w, a, p).endpoint]] + Grants(w, a, Taken(w, a, before + after))
         == exported + Grants(w, a, Taken(w, a, before + [p] + after))
  {
    RefusalsOne(w, a, before, p, after);
    OfferByKey(w, a, p);
    TakenOne(w, a, before, p, after);
    GrantsOne(w, a, Taken(w, a, before + after), Key(p));
    Swapped(exported, Grants(w, a, Taken(w, a, before + after)), Key(p), map[a := Offer(w, a, p).endpoint]);
  }

  /** Sharing a wire succeeds if all its endpoints can be announced again, a new request if an admin
      serves it; a request that has to wait reports failure. */
  function ExportStatus(w: World, s: State, p: Props): Status {
    if Key(p) in s.exported then
      var inner := s.exported[Key(p)];
      if forall a | a in inner :: w.announced(inner[a]) then Success else Failed
    else if Served(w, s.admins, p) != map[] then Success
    else Failed
  }

  /** A request that is not exported cannot be removed. */
  function RemoveStatus(w: World, s: State, p: Props): Status {
    if Key(p) !in s.exported then IllegalState
    else
      var inner := s.exported[Key(p)];
      if forall a | a in inner :: w.released(a, inner[a]) then Success else Failed
  }

  /** A new request succeeds if and only if an admin serves it afterwards, and a shared one fails if and only
      if some endpoint of it cannot be announced. */
  lemma ExportStatusIs(w: World, s: State, p: Props)
    ensures var s', status := OnExport(w, s, p), ExportStatus(w, s, p);
            && status in {Success, Failed}
            && (Key(p) !in s.exported ==>
                  (status == Success <==> exists a :: Key(p) in s'.exported && a in s'.exported[Key(p)]))
            && (Key(p) in s.exported ==>
                  (status == Failed <==> exists a :: a in s.exported[Key(p)] && !w.announced(s.exported[Key(p)][a])))
  {
    if Key(p) !in s.exported && Served(w, s.admins, p) != map[] {
      ServedIs(w, s.admins, p);
      ExportGoes(w, s, p);
      var a := s.admins[FirstYield(w, s.admins, p)];
      assert Key(p) in OnExport(w, s, p).exported && a in OnExport(w, s, p).exported[Key(p)];
    }
  }

  /** A removal is refused if and only if the request is not exported, and fails if and only if some admin does
      not release its endpoint. */
  lemma RemoveStatusIs(w: World, s: State, p: Props)
    ensures var status := RemoveStatus(w, s, p);
            && status in {Success, Failed, IllegalState} && (status == IllegalState <==> Key(p) !in s.exported)
            && (status == Failed <==>
                  Key(p) in s.exported && exists a :: a in s.exported[Key(p)] && !w.released(a, s.exported[Key(p)][a]))
  {
  }

  class Manager {
    var waList: seq<Admin>
    var waitingForExport: seq<Props>
    var exportedEndpoints: Table

    ghost function Value(): State
      reads this
    {
      State(waList, waitingForExport, exportedEndpoints)
    }

    constructor ()
      ensures Value() == START
    {
      waList, waitingForExport, exportedEndpoints := [], [], map[];
    }

    method OfferTo(w: World, a: Admin, p: Props) returns (outcome: Outcome)
      ensures outcome == Offer(w, a, p)
    {
      if w.props(a).None? {
        return Refused;
      }
      var matching := PropertiesMatch(p, w.props(a).value);
      if !matching || w.endpoint(a, Key(p)).None? {
        return Refused;
      }
      var e := w.endpoint(a, Key(p)).value;
      return if w.announced(e) then Exported(e) else Unannounced(e);
    }

    /** Asks the admins in order until one yields an endpoint, announced or not. */
    method ServeNew(w: World, p: Props) returns (inner: Inner, status: Status)
      ensures inner == Served(w, waList, p)
      ensures status == if inner == map[] then Failed else Success
    {
      inner, status := map[], Failed;
      for i := 0 to |waList|
        invariant inner == map[] && status == Failed && Served(w, waList, p) == Served(w, waList[i..], p)
      {
        var outcome := OfferTo(w, waList[i], p);
        assert waList[i..][1..] == waList[i + 1..];
        match outcome
        case Refused =>
        case Exported(e) =>
          inner := map[waList[i] := e];
          assert waList[i] in inner;
          return inner, Success;
        case Unannounced(_) => return;
      }
    }

    /** Another service shares the wire: its endpoints are announced until one announcement fails. */
    method Reuse(w: World, inner: Inner) returns (status: Status)
      ensures status == if forall a | a in inner :: w.announced(inner[a]) then Success else Failed
    {
      status := Success;
      var todo := inner.Keys;
      while todo != {} && status == Success
        invariant todo <= inner.Keys && status in {Success, Failed}
        invariant status == Success ==> forall a | a in inner && a !in todo :: w.announced(inner[a])
        invariant status == Failed ==> exists a | a in inner :: !w.announced(inner[a])
        decreases todo
      {
        var a :| a in todo;
        todo := todo - {a};
        if !w.announced(inner[a]) {
          status := Failed;
        }
      }
    }

    /** A request that has to wait reports failure all the same. */
    method ExportWiringEndpoint(w: World, request: Option<Props>) returns (status: Status)
      modifies this
      ensures Value() == if request.Some? then OnExport(w, old(Value()), request.value) else old(Value())
      ensures status == if request.None? then IllegalArgument else ExportStatus(w, old(Value()), request.value)
    {
      if request.None? {
        return IllegalArgument;
      }
      var p := request.value;
      if Key(p) in exportedEndpoints {
        status := Reuse(w, exportedEndpoints[Key(p)]);
      } else if |waList| > 0 {
        var inner;
        inner, status := ServeNew(w, p);
        exportedEndpoints := exportedEndpoints[Key(p) := inner];
      } else {
        waitingForExport := waitingForExport + [p];
        status := Failed;
      }
    }

    method Release(w: World, inner: Inner) returns (status: Status)
      ensures status == if forall a | a in inner :: w.released(a, inner[a]) then Success else Failed
    {
      status := Success;
      var todo := inner.Keys;
      while todo != {} && status == Success
        invariant todo <= inner.Keys && status in {Success, Failed}
        invariant status == Success ==> forall a | a in inner && a !in todo :: w.released(a, inner[a])
        invariant status == Failed ==> exists a | a in inner :: !w.released(a, inner[a])
        decreases todo
      {
        var a :| a in todo;
        todo := todo - {a};
        if !w.released(a, inner[a]) {
          status := Failed;
        }
      }
    }

    /** Refused for a request that is still waiting, which goes on waiting. */
    method RemoveExportedWiringEndpoint(w: World, request: Option<Props>) returns (status: Status)
      modifies this
      ensures Value() == if request.Some? then OnRemove(old(Value()), request.value) else old(Value())
      ensures status == if request.None? then IllegalArgument else RemoveStatus(w, old(Value()), request.value)
    {
      if request.None? {
        return IllegalArgument;
      }
      var k := Key(request.value);
      if k !in exportedEndpoints {
        assert exportedEndpoints - {k} == exportedEndpoints;
        return IllegalState;
      }
      var inner := exportedEndpoints[k];
      exportedEndpoints := exportedEndpoints - {k};
      status := Release(w, inner);
    }

    /** Offers every exported request to the new admin as well. */
    method Widen(w: World, a: Admin)
      modifies `exportedEndpoints
      ensures exportedEndpoints == WidenedAll(w, a, old(exportedEndpoints))
    {
      var todo := exportedEndpoints.Keys;
      while todo != {}
        invariant todo <= exportedEndpoints.Keys == old(exportedEndpoints.Keys)
        invariant forall k | k in exportedEndpoints ::
          exportedEndpoints[k]
          == if k in todo then old(exportedEndpoints)[k] else Widened(w, a, k, old(exportedEndpoints)[k])
        decreases todo
      {
        var k :| k in todo;
        todo := todo - {k};
        var outcome := OfferTo(w, a, k);
        if outcome.Exported? {
          exportedEndpoints := exportedEndpoints[k := exportedEndpoints[k][a := outcome.endpoint]];
        }
      }
    }

    /** Walks the waiting list and starts over after every request the admin took. */
    method Drain(w: World, a: Admin)
      modifies `waitingForExport, `exportedEndpoints
      ensures waitingForExport == Refusals(w, a, old(waitingForExport))
      ensures exportedEndpoints == old(exportedEndpoints) + Grants(w, a, Taken(w, a, old(waitingForExport)))
    {
      var i := 0;
      while i < |waitingForExport|
        invariant i <= |waitingForExport|
        invariant forall j | 0 <= j < i :: !Accepts(w, a, waitingForExport[j])
        invariant Refusals(w, a, waitingForExport) == Refusals(w, a, old(waitingForExport))
        invariant exportedEndpoints + Grants(w, a, Taken(w, a, waitingForExport))
               == old(exportedEndpoints) + Grants(w, a, Taken(w, a, old(waitingForExport)))
        decreases |waitingForExport|, |waitingForExport| - i
      {
        var p := waitingForExport[i];
        var outcome := OfferTo(w, a, p);
        if outcome.Exported? {
          ghost var before, after := waitingForExport[..i], waitingForExport[i + 1..];
          assert waitingForExport == before + [p] + after;
          DrainOne(w, a, before, p, after, exportedEndpoints);
          waitingForExport := waitingForExport[..i] + waitingForExport[i + 1..];
          i := 0;
          exportedEndpoints := exportedEndpoints[Key(p) := map[a := outcome.endpoint]];
        } else {
          i := i + 1;
        }
      }
      AllRefused(w, a, waitingForExport);
      assert Taken(w, a, waitingForExport) == {};
    }

    method AdminAdded(w: World, a: Admin)
      modifies this
      ensures Value() == OnAdmin(w, old(Value()), a)
    {
      waList := waList + [a];
      Widen(w, a);
      Drain(w, a);
    }

    method RemoveFromList(a: Admin)
      modifies `waList
      ensures waList == WithoutFirst(old(waList), a)
    {
      for i := 0 to |waList|
        invariant waList == old(waList)
        invariant WithoutFirst(waList, a) == waList[..i] + WithoutFirst(waList[i..], a)
      {
        if waList[i] == a {
          assert waList[i..][1..] == waList[i + 1..];
          waList := waList[..i] + waList[i + 1..];
          return;
        }
        assert waList[i..] == [waList[i]] + waList[i + 1..];
        assert waList[..i + 1] == waList[..i] + [waList[i]];
      }
    }

    method AdminRemoved(a: Admin)
      modifies this
      ensures Value() == OnAdminGone(old(Value()), a)
    {
      var todo := exportedEndpoints.Keys;
      while todo != {}
        invariant todo <= exportedEndpoints.Keys == old(exportedEndpoints.Keys)
        invariant waList == old(waList) && waitingForExport == old(waitingForExport)
        invariant forall k | k in exportedEndpoints ::
          exportedEndpoints[k] == if k in todo then old(exportedEndpoints)[k] else old(exportedEndpoints)[k] - {a}
        decreases todo
      {
        var k :| k in todo;
        todo := todo - {k};
        if a in exportedEndpoints[k] {
          exportedEndpoints := exportedEndpoints[k := exportedEndpoints[k] - {a}];
        } else {
          assert exportedEndpoints[k] - {a} == exportedEndpoints[k];
        }
      }
      assert exportedEndpoints == Narrowed(a, old(exportedEndpoints));
      RemoveFromList(a);
    }
  }
}
