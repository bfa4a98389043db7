/** Endpoint descriptions as a document: the writer, as the sequence of parser events its output
    gives rise to, and the handler that reads those events back.  The text of the document and
    the XML parser lie outside this model. */
module EndpointDescriptor {
  import opened Wrappers
  import opened Collections

  // ---- Values -------------------------------------------------------------------------------------

  datatype Width = Long | Int | Short | Byte

  /** The classes and primitive types that have a name in a document. */
  datatype Type =
    | StringClass
    | NumberClass(width: Width)
    | NumberType(width: Width)
    | CharClass
    | CharType
    | FloatingClass(double: bool)
    | FloatingType(double: bool)
    | BooleanClass
    | BooleanType

  /** A scalar object.  A floating point number is represented by its text. */
  datatype Scalar =
    | Text(text: string)
    | Number(width: Width, n: int)
    | Character(c: char)
    | Floating(double: bool, digits: string)
    | Boolean(b: bool)
    | Foreign(text: string)
    | Null

  datatype Value =
    | Single(item: Scalar)
    | Array(component: Type, items: seq<Scalar>)
    | List(items: seq<Scalar>)
    | Set(members: set<Scalar>)

  type Props = map<string, Value>

  datatype Event =
    | Start(name: string, attributes: seq<(string, string)>)
    | End(name: string)
    | Chars(text: string)
    | Fatal                   // the parser gives up

  /** What is left to the platform: the parser's events for a string that is well-formed XML,
      and the text of the number that a floating point literal denotes. */
  datatype Platform = Platform(xml: string -> Option<seq<Event>>, floating: (bool, string) -> Option<string>)

  // ---- TYPES and their names ------------------------------------------------------------------------

  function NameOf(t: Type): string {
    match t
    case StringClass => "String"
    case NumberClass(w) => (match w case Long => "Long" case Int => "Integer" case Short => "Short" case Byte => "Byte")
    case NumberType(w) => (match w case Long => "long" case Int => "int" case Short => "short" case Byte => "byte")
    case CharClass => "Character"
    case CharType => "char"
    case FloatingClass(d) => if d then "Double" else "Float"
    case FloatingType(d) => if d then "double" else "float"
    case BooleanClass => "Boolean"
    case BooleanType => "boolean"
  }

  const TYPES: seq<Type> := [
    StringClass, NumberClass(Long), NumberType(Long), NumberClass(Int), NumberType(Int), NumberClass(Byte),
    NumberType(Byte), CharClass, CharType, FloatingClass(true), FloatingType(true), FloatingClass(false),
    FloatingType(false), BooleanClass, BooleanType, NumberClass(Short), NumberType(Short)]

  function LookupIn(types: seq<Type>, name: string): Option<Type> {
    if types == [] then None
    else if NameOf(types[0]) == name then Some(types[0])
    else LookupIn(types[1..], name)
  }

  /** An absent or unknown name stands for strings. */
  function TypeNamed(name: Option<string>): Type {
    if name.None? || name.value == "" then StringClass
    else match LookupIn(TYPES, name.value) case Some(t) => t case None => StringClass
  }

  lemma {:induction false} LookupFirst(types: seq<Type>, i: nat)
    requires i < |types| && forall j | 0 <= j < i :: NameOf(types[j]) != NameOf(types[i])
    ensures LookupIn(types, NameOf(types[i])) == Some(types[i])
    decreases i
  {
    if i > 0 {
      LookupFirst(types[1..], i - 1);
    }
  }

  function IndexOf(t: Type): nat {
    match t
    case StringClass => 0
    case NumberClass(w) => (match w case Long => 1 case Int => 3 case Byte => 5 case Short => 15)
    case NumberType(w) => (match w case Long => 2 case Int => 4 case Byte => 6 case Short => 16)
    case CharClass => 7
    case CharType => 8
    case FloatingClass(d) => if d then 9 else 11
    case FloatingType(d) => if d then 10 else 12
    case BooleanClass => 13
    case BooleanType => 14
  }

  lemma NamesDiffer(t: Type, u: Type)
    requires IndexOf(t) != IndexOf(u)
    ensures NameOf(t) != NameOf(u)
  {
  }

  lemma IndexedTypes(j: nat)
    requires j < |TYPES|
    ensures IndexOf(TYPES[j]) == j
  {
  }

  lemma IndexedType(t: Type)
    ensures IndexOf(t) < |TYPES| && TYPES[IndexOf(t)] == t
  {
  }

  /** Every type is found again under its name. */
  lemma NamedAgain(t: Type)
    ensures TypeNamed(Some(NameOf(t))) == t
  {
    var i := IndexOf(t);
    IndexedType(t);
    forall j | 0 <= j < i
      ensures NameOf(TYPES[j]) != NameOf(t)
    {
      IndexedTypes(j);
      NamesDiffer(TYPES[j], t);
    }
    LookupFirst(TYPES, i);
  }

  /** The names in a document, and what they stand for. */
  lemma NamesAre(name: string)
    ensures TypeNamed(Some("String")) == StringClass && TypeNamed(Some("Character")) == CharClass
    ensures TypeNamed(Some("char")) == CharType
    ensures TypeNamed(Some("Long")) == NumberClass(Long) && TypeNamed(Some("long")) == NumberType(Long)
    ensures TypeNamed(Some("Integer")) == NumberClass(Int) && TypeNamed(Some("int")) == NumberType(Int)
    ensures TypeNamed(Some("Short")) == NumberClass(Short) && TypeNamed(Some("short")) == NumberType(Short)
    ensures TypeNamed(Some("Byte")) == NumberClass(Byte) && TypeNamed(Some("byte")) == NumberType(Byte)
    ensures TypeNamed(Some("Double")) == FloatingClass(true) && TypeNamed(Some("double")) == FloatingType(true)
    ensures TypeNamed(Some("Float")) == FloatingClass(false) && TypeNamed(Some("float")) == FloatingType(false)
    ensures TypeNamed(Some("Boolean")) == BooleanClass && TypeNamed(Some("boolean")) == BooleanType
    ensures TypeNamed(None) == StringClass && ((forall t :: NameOf(t) != name) ==> TypeNamed(Some(name)) == StringClass)
  {
    forall t
      ensures TypeNamed(Some(NameOf(t))) == t
    {
      NamedAgain(t);
    }
    assert NameOf(StringClass) == "String" && NameOf(CharClass) == "Character" && NameOf(CharType) == "char";
    NumberNames();
    FloatingNames();
    Unnamed(TYPES, name);
  }

  lemma NumberNames()
    ensures NameOf(NumberClass(Long)) == "Long" && NameOf(NumberType(Long)) == "long"
    ensures NameOf(NumberClass(Int)) == "Integer" && NameOf(NumberType(Int)) == "int"
    ensures NameOf(NumberClass(Short)) == "Short" && NameOf(NumberType(Short)) == "short"
    ensures NameOf(NumberClass(Byte)) == "Byte" && NameOf(NumberType(Byte)) == "byte"
  {
  }

  lemma FloatingNames()
    ensures NameOf(FloatingClass(true)) == "Double" && NameOf(FloatingType(true)) == "double"
    ensures NameOf(FloatingClass(false)) == "Float" && NameOf(FloatingType(false)) == "float"
    ensures NameOf(BooleanClass) == "Boolean" && NameOf(BooleanType) == "boolean"
  {
  }

  lemma {:induction false} Unnamed(types: seq<Type>, name: string)
    ensures (forall t :: NameOf(t) != name) ==> LookupIn(types, name) == None
  {
    if types != [] {
      Unnamed(types[1..], name);
    }
  }

  // ---- Numbers as text ------------------------------------------------------------------------------

  function Digits(n: nat): string {
    (if n < 10 then [] else Digits(n / 10)) + [('0' as int + n % 10) as char]
  }

  function Decimal(n: int): string {
    if n < 0 then ['-'] + Digits(-n) else Digits(n)
  }

  predicate IsDigit(c: char) {
    '0' <= c <= '9'
  }

  function Unsigned(s: string): Option<nat> {
    if s == [] then None
    else
      var c := s[|s| - 1];
      if !IsDigit(c) then None
      else
        var d: nat := c as int - '0' as int;
        if |s| == 1 then Some(d)
        else match Unsigned(s[..|s| - 1])
          case None => None
          case Some(m) => Some(m * 10 + d)
  }

  function Bits(w: Width): int {
    match w case Long => 0x8000_0000_0000_0000 case Int => 0x8000_0000 case Short => 0x8000 case Byte => 0x80
  }

  predicate InRange(w: Width, n: int) {
    0 - Bits(w) <= n < Bits(w)
  }

  function ParseNumber(w: Width, s: string): Option<int> {
    var signed := s != [] && (s[0] == '-' || s[0] == '+');
    match Unsigned(if signed then s[1..] else s)
    case None => None
    case Some(m) =>
      var n: int := if signed && s[0] == '-' then 0 - m else m;
      if InRange(w, n) then Some(n) else None
  }

  lemma {:induction false} DigitsRead(n: nat)
    ensures Unsigned(Digits(n)) == Some(n) && IsDigit(Digits(n)[0])
  {
    if n >= 10 {
      DigitsRead(n / 10);
      assert Digits(n)[..|Digits(n)| - 1] == Digits(n / 10);
    }
  }

  lemma NumberRead(w: Width, n: int)
    requires InRange(w, n)
    ensures ParseNumber(w, Decimal(n)) == Some(n)
  {
    DigitsRead(if n < 0 then -n else n);
    if n < 0 {
      assert Decimal(n)[1..] == Digits(-n);
    }
  }

  /** Decimal digits, each worth ten of the next. */
  lemma DigitsNext(n: nat, d: nat)
    requires d < 10
    ensures Digits(10 * n + d) == (if n == 0 then "" else Digits(n)) + ["0123456789"[d]]
  {
    assert (10 * n + d) / 10 == n && (10 * n + d) % 10 == d;
  }

  function Limit(w: Width): nat {
    match w case Long => 0x8000_0000_0000_0000 case Int => 0x8000_0000 case Short => 0x8000 case Byte => 0x80
  }

  /** Either sign is read, and what is out of range is not. */
  lemma UnsignedRead(w: Width, n: nat)
    ensures ParseNumber(w, Digits(n)) == if n < Limit(w) then Some(n) else None
  {
    DigitsRead(n);
  }

  lemma SignedRead(w: Width, n: nat, sign: char)
    requires sign == '+' || sign == '-'
    ensures var m: int := if sign == '-' then 0 - n else n;
            ParseNumber(w, [sign] + Digits(n)) == if 0 - Limit(w) <= m < Limit(w) then Some(m) else None
  {
    DigitsRead(n);
    assert ([sign] + Digits(n))[1..] == Digits(n);
  }

  /** Digits only, and at least one. */
  lemma {:induction false} UnsignedIs(s: string)
    ensures Unsigned(s).Some? <==> s != "" && forall c <- s :: c in "0123456789"
  {
    if s != "" {
      var before, c := s[..|s| - 1], s[|s| - 1];
      assert s == before + [c];
      UnsignedIs(before);
      assert IsDigit(c) <==> c in "0123456789";
    }
  }

  // ---- Scalars as text --------------------------------------------------------------------------------

  predicate IsTrue(s: string) {
    && |s| == 4 && s[0] in "tT" && s[1] in "rR" && s[2] in "uU" && s[3] in "eE"
  }

  /** What the type makes of a text; None where it throws.  The primitive int knows only null. */
  function Parse(pf: Platform, t: Type, s: string): Option<Scalar> {
    match t
    case StringClass => Some(Text(s))
    case NumberType(Int) => Some(Null)
    case NumberClass(w) => (match ParseNumber(w, s) case Some(n) => Some(Number(w, n)) case None => None)
    case NumberType(w) => (match ParseNumber(w, s) case Some(n) => Some(Number(w, n)) case None => None)
    case CharClass => if |s| == 1 then Some(Character(s[0])) else None
    case CharType => if |s| == 1 then Some(Character(s[0])) else None
    case FloatingClass(d) => (match pf.floating(d, s) case Some(x) => Some(Floating(d, x)) case None => None)
    case FloatingType(d) => (match pf.floating(d, s) case Some(x) => Some(Floating(d, x)) case None => None)
    case BooleanClass => Some(Boolean(IsTrue(s)))
    case BooleanType => Some(Boolean(IsTrue(s)))
  }

  /** True is spelt in letters of either case; whatever else is false. */
  lemma BooleanRead(pf: Platform, s: string)
    ensures Parse(pf, BooleanClass, s) == Parse(pf, BooleanType, s)
         == Some(Boolean(|s| == 4 && forall i | 0 <= i < 4 :: s[i] == "true"[i] || s[i] == "TRUE"[i]))
  {
  }

  function ToText(x: Scalar): string {
    match x
    case Text(s) => s
    case Number(_, n) => Decimal(n)
    case Character(c) => [c]
    case Floating(_, digits) => digits
    case Boolean(b) => if b then "true" else "false"
    case Foreign(s) => s
    case Null => ""
  }

  function ClassOf(x: Scalar): Option<Type> {
    match x
    case Text(_) => Some(StringClass)
    case Number(w, _) => Some(NumberClass(w))
    case Character(_) => Some(CharClass)
    case Floating(d, _) => Some(FloatingClass(d))
    case Boolean(_) => Some(BooleanClass)
    case Foreign(_) => None
    case Null => None
  }

  /** The class that boxes a type's values. */
  function Boxed(t: Type): Type {
    match t
    case NumberType(w) => NumberClass(w)
    case CharType => CharClass
    case FloatingType(d) => FloatingClass(d)
    case BooleanType => BooleanClass
    case _ => t
  }

  /** A value the platform can produce. */
  predicate Real(pf: Platform, x: Scalar) {
    match x
    case Number(w, n) => InRange(w, n)
    case Floating(d, digits) => pf.floating(d, digits) == Some(digits)
    case _ => true
  }

  lemma ParseBack(pf: Platform, t: Type, x: Scalar)
    requires Real(pf, x) && ClassOf(x) == Some(Boxed(t)) && t != NumberType(Int)
    ensures Parse(pf, t, ToText(x)) == Some(x)
  {
    if x.Number? {
      NumberRead(x.width, x.n);
    }
  }

  /** Whatever a type parses to is an object of its class, or null for the primitive int. */
  lemma ParseClass(pf: Platform, t: Type, s: string)
    requires Parse(pf, t, s).Some?
    ensures var x := Parse(pf, t, s).value;
            if t == NumberType(Int) then x == Null else ClassOf(x) == Some(Boxed(t))
  {
  }

  /** A number reads back from the text that shows it. */
  ghost predicate Stable(pf: Platform) {
    forall d, s :: pf.floating(d, s).Some? ==>
      var shown := pf.floating(d, s).value; pf.floating(d, shown) == Some(shown)
  }

  /** Whatever is read is a value that the platform can produce. */
  lemma ParseReal(pf: Platform, t: Type, s: string)
    requires Stable(pf)
    requires Parse(pf, t, s).Some?
    ensures Real(pf, Parse(pf, t, s).value)
  {
  }

  // ---- What the parser makes of text --------------------------------------------------------------------

  /** The characters that section 2.2 of XML 1.0 admits; the writer escapes no others. */
  predicate Legal(c: char) {
    c == '\t' || c == '\n' || c == '\r' || (' ' <= c && c != '\U{FFFE}' && c != '\U{FFFF}')
  }

  /** The same in numbers. */
  lemma LegalIs(c: char)
    ensures var n := c as int;
            Legal(c) <==> n in {9, 10, 13} || 0x20 <= n <= 0xD7FF || 0xE000 <= n <= 0xFFFD || 0x1_0000 <= n
  {
  }

  predicate AllLegal(s: string) {
    forall c <- s :: Legal(c)
  }

  /** Line ends as section 2.11 of XML 1.0 has them. */
  function Content(s: string): string {
    if s == [] then []
    else if s[0] != '\r' then [s[0]] + Content(s[1..])
    else ['\n'] + Content(if |s| > 1 && s[1] == '\n' then s[2..] else s[1..])
  }

  function Blanked(s: string): string {
    if s == [] then [] else [if s[0] == '\t' || s[0] == '\n' then ' ' else s[0]] + Blanked(s[1..])
  }

  /** Attribute values as section 3.3.3 of XML 1.0 has them. */
  function Attr(s: string): string {
    Blanked(Content(s))
  }

  predicate ContentClean(s: string) {
    AllLegal(s) && '\r' !in s
  }

  predicate AttrClean(s: string) {
    ContentClean(s) && '\t' !in s && '\n' !in s
  }

  /** A carriage return, with or without a line feed behind it, becomes a line feed; nothing else changes. */
  lemma LineEnds(c: char, rest: string)
    ensures Content("\r\n" + rest) == "\n" + Content(rest)
    ensures rest == "" || rest[0] != '\n' ==> Content("\r" + rest) == "\n" + Content(rest)
    ensures c != '\r' ==> Content([c] + rest) == [c] + Content(rest)
  {
    assert ("\r\n" + rest)[2..] == rest && ("\r" + rest)[1..] == rest && ([c] + rest)[1..] == rest;
  }

  function Taken(s: string): nat {
    if |s| > 1 && s[0] == '\r' && s[1] == '\n' then 2 else 1
  }

  function First(s: string): string
    requires s != ""
  {
    if s[0] == '\r' then "\n" else [s[0]]
  }

  lemma ContentStep(s: string)
    requires s != ""
    ensures Taken(s) <= |s| && Content(s) == First(s) + Content(s[Taken(s)..])
  {
  }

  /** No pair is cut in two between the texts. */
  predicate Apart(a: string, rest: string) {
    a == "" || rest == "" || a[|a| - 1] != '\r' || rest[0] != '\n'
  }

  lemma TakenAppend(a: string, rest: string)
    requires a != "" && Apart(a, rest)
    ensures Taken(a + rest) == Taken(a) <= |a| && First(a + rest) == First(a)
    ensures (a + rest)[Taken(a)..] == a[Taken(a)..] + rest && Apart(a[Taken(a)..], rest)
  {
    if |a| == 1 && rest != "" {
      assert (a + rest)[1] == rest[0];
    }
  }

  lemma Associative(a: string, b: string, c: string)
    ensures a + (b + c) == a + b + c
  {
  }

  /** It does not matter what stands before, unless a pair is cut in two. */
  lemma {:induction false} ContentAppend(a: string, rest: string)
    requires Apart(a, rest)
    ensures Content(a + rest) == Content(a) + Content(rest)
    decreases |a|
  {
    if a == "" {
      assert a + rest == rest;
    } else {
      TakenAppend(a, rest);
      ContentStep(a);
      ContentStep(a + rest);
      var left := a[Taken(a)..];
      ContentAppend(left, rest);
      Associative(First(a), Content(left), Content(rest));
    }
  }

  lemma {:induction false} BlankedAt(s: string, i: nat)
    requires i < |s|
    ensures |Blanked(s)| == |s| && Blanked(s)[i] == if s[i] in "\t\n" then ' ' else s[i]
  {
    if |s| > 1 {
      BlankedAt(s[1..], if i > 0 then i - 1 else 0);
    }
  }

  lemma {:induction false} ContentIs(s: string)
    requires AllLegal(s)
    ensures ContentClean(Content(s)) && ('\r' !in s ==> Content(s) == s)
    decreases |s|
  {
    if s != [] {
      assert s == [s[0]] + s[1..];
      ContentIs(s[1..]);
      if s[0] == '\r' && |s| > 1 && s[1] == '\n' {
        ContentIs(s[2..]);
      }
    }
  }

  lemma {:induction false} BlankedIs(s: string)
    requires ContentClean(s)
    ensures AttrClean(Blanked(s)) && (AttrClean(s) ==> Blanked(s) == s)
  {
    if s != [] {
      assert s == [s[0]] + s[1..];
      BlankedIs(s[1..]);
    }
  }

  /** An attribute value is reported clean, and unchanged if and only if it was. */
  lemma AttrIs(s: string)
    requires AllLegal(s)
    ensures AttrClean(Attr(s)) && (Attr(s) == s <==> AttrClean(s))
  {
    ContentIs(s);
    BlankedIs(Content(s));
  }

  function AttrParse(pf: Platform, t: Type, s: string): Option<Scalar> {
    if AllLegal(s) then Parse(pf, t, Attr(s)) else None
  }

  function ItemParse(pf: Platform, t: Type, s: string): Option<Scalar> {
    if AllLegal(s) then Parse(pf, t, Content(s)) else None
  }

  /** Numbers are written without white space or control characters. */
  ghost predicate Sane(pf: Platform) {
    forall d, s :: pf.floating(d, s).Some? ==> AttrClean(pf.floating(d, s).value)
  }

  lemma {:induction false} DigitsClean(n: nat)
    ensures AttrClean(Digits(n))
  {
    if n >= 10 {
      DigitsClean(n / 10);
    }
  }

  lemma NumberClean(n: int)
    ensures AttrClean(Decimal(n))
  {
    DigitsClean(if n < 0 then -n else n);
  }

  /** Everything but strings and characters is written clean. */
  lemma ScalarClean(pf: Platform, x: Scalar)
    requires Sane(pf) && Real(pf, x) && !x.Text? && !x.Character? && !x.Foreign?
    ensures AttrClean(ToText(x))
  {
    if x.Number? {
      NumberClean(x.n);
    } else if x.Floating? {
      assert pf.floating(x.double, x.digits).value == x.digits;
    }
  }

  lemma ParseClean(pf: Platform, t: Type, s: string)
    requires Sane(pf) && ContentClean(s) && Parse(pf, t, s).Some?
    ensures ContentClean(ToText(Parse(pf, t, s).value))
  {
    var y := Parse(pf, t, s).value;
    if y.Number? {
      NumberClean(y.n);
    } else if y.Floating? {
      assert AttrClean(pf.floating(y.double, s).value);
    }
  }

  /** Whatever comes out of element content is written clean again. */
  lemma ItemParseClean(pf: Platform, t: Type, s: string)
    requires Sane(pf) && ItemParse(pf, t, s).Some?
    ensures ContentClean(ToText(ItemParse(pf, t, s).value))
  {
    ContentIs(s);
    ParseClean(pf, t, Content(s));
  }

  lemma CleanParsed(pf: Platform, x: Scalar)
    requires Real(pf, x) && ClassOf(x).Some? && AttrClean(ToText(x))
    ensures AttrParse(pf, ClassOf(x).value, ToText(x)) == Some(x)
  {
    AttrIs(ToText(x));
    ParseBack(pf, ClassOf(x).value, x);
  }

  lemma TextParsed(pf: Platform, text: string)
    ensures AttrParse(pf, StringClass, text) == Some(Text(text)) ==> AttrClean(text)
  {
    if AllLegal(text) {
      AttrIs(text);
    }
  }

  lemma CharacterParsed(pf: Platform, c: char)
    ensures AttrParse(pf, CharClass, [c]) == Some(Character(c)) ==> AttrClean([c])
  {
    if AllLegal([c]) {
      AttrIs([c]);
      assert Attr([c]) == [c] ==> AttrClean([c]);
      assert |Attr([c])| == 1 ==> Attr([c]) == [Attr([c])[0]];
    }
  }

  /** A scalar comes back from an attribute if and only if its text is clean. */
  lemma AttrParseExactly(pf: Platform, x: Scalar)
    requires Sane(pf) && Real(pf, x) && ClassOf(x).Some?
    ensures AttrParse(pf, ClassOf(x).value, ToText(x)) == Some(x) <==> AttrClean(ToText(x))
  {
    if AttrClean(ToText(x)) {
      CleanParsed(pf, x);
    } else if x.Text? {
      TextParsed(pf, x.text);
    } else if x.Character? {
      CharacterParsed(pf, x.c);
    } else {
      ScalarClean(pf, x);
    }
  }

  // ---- The writer -------------------------------------------------------------------------------------

  /** The order in which the platform's hash tables yield keys and members. */
  datatype Orders = Orders(keys: set<string> -> seq<string>, members: set<Scalar> -> seq<Scalar>)

  ghost predicate Fair(o: Orders) {
    && (forall ks, k :: k in o.keys(ks) <==> k in ks)
    && (forall xs, x :: x in o.members(xs) <==> x in xs)
  }

  function Attributes(k: string, t: Type, value: Option<string>): seq<(string, string)> {
    [("name", k)]
    + (if t == StringClass then [] else [("value-type", NameOf(t))])
    + (if value.None? then [] else [("value", value.value)])
  }

  function StartProperty(k: string, t: Type, value: Option<string>): Event {
    if AllLegal(k) && (value.Some? ==> AllLegal(value.value)) then
      Start("property", Attributes(Attr(k), t, if value.Some? then Some(Attr(value.value)) else None))
    else Fatal
  }

  function Items(o: Orders, v: Value): seq<Scalar> {
    match v case Single(x) => [x] case Array(_, items) => items case List(items) => items case Set(xs) => o.members(xs)
  }

  /** A collection is described by its first element, an array by its component type. */
  function TypeOf(o: Orders, v: Value): Option<Type> {
    match v
    case Single(x) => ClassOf(x)
    case Array(t, _) => Some(t)
    case _ => var items := Items(o, v); if items == [] then Some(StringClass) else ClassOf(items[0])
  }

  predicate Writable(o: Orders, v: Value) {
    TypeOf(o, v).Some? && Null !in Items(o, v)
  }

  function ItemText(s: string): Event {
    if AllLegal(s) then Chars(Content(s)) else Fatal
  }

  function ItemEvents(x: Scalar): seq<Event> {
    [Chars("         "), Start("value", []), ItemText(ToText(x)), End("value"), Chars("\n")]
  }

  function ItemsEvents(items: seq<Scalar>): seq<Event> {
    if items == [] then [] else ItemsEvents(items[..|items| - 1]) + ItemEvents(items[|items| - 1])
  }

  function Tag(v: Value): string {
    match v case Array(_, _) => "array" case List(_) => "list" case _ => "set"
  }

  function Opening(k: string, t: Type, tag: string): seq<Event> {
    [Chars("   "), StartProperty(k, t, None), Chars("\n      "), Start(tag, []), Chars("\n")]
  }

  function Closing(tag: string): seq<Event> {
    [Chars("      "), End(tag), Chars("\n   "), End("property"), Chars("\n")]
  }

  function SingleEvents(k: string, t: Type, text: string): seq<Event> {
    [Chars("   "), StartProperty(k, t, Some(text)), End("property"), Chars("\n")]
  }

  function XmlEvents(k: string, content: seq<Event>): seq<Event> {
    [Chars("    "), StartProperty(k, StringClass, None), Chars("\n      "), Start("xml", [])]
    + content + [End("xml"), Chars("\n    "), End("property"), Chars("\n")]
  }

  /** The writer puts out a single string that is XML as markup. */
  predicate AsXml(pf: Platform, v: Value) {
    v.Single? && v.item.Text? && pf.xml(v.item.text).Some?
  }

  function PropertyEvents(pf: Platform, o: Orders, k: string, v: Value): seq<Event>
    requires Writable(o, v)
  {
    var t := TypeOf(o, v).value;
    if !v.Single? then Opening(k, t, Tag(v)) + ItemsEvents(Items(o, v)) + Closing(Tag(v))
    else if AsXml(pf, v) then XmlEvents(k, pf.xml(v.item.text).value)
    else SingleEvents(k, t, ToText(v.item))
  }

  predicate AllWritable(o: Orders, p: Props, order: seq<string>) {
    forall k <- order :: k in p && Writable(o, p[k])
  }

  function PropsEvents(pf: Platform, o: Orders, p: Props, order: seq<string>): seq<Event>
    requires AllWritable(o, p, order)
  {
    if order == [] then []
    else
      var k := order[|order| - 1];
      PropsEvents(pf, o, p, order[..|order| - 1]) + PropertyEvents(pf, o, k, p[k])
  }

  const ENDPOINT_OPENING: seq<Event> := [Chars("  "), Start("endpoint-description", []), Chars("\n")]

  const ENDPOINT_CLOSING: seq<Event> := [Chars("  "), End("endpoint-description"), Chars("\n")]

  function EndpointEvents(pf: Platform, o: Orders, p: Props): seq<Event>
    requires AllWritable(o, p, o.keys(p.Keys))
  {
    ENDPOINT_OPENING + PropsEvents(pf, o, p, o.keys(p.Keys)) + ENDPOINT_CLOSING
  }

  predicate DocWritable(o: Orders, doc: seq<Props>) {
    forall p <- doc :: AllWritable(o, p, o.keys(p.Keys))
  }

  function EndpointsEvents(pf: Platform, o: Orders, doc: seq<Props>): seq<Event>
    requires DocWritable(o, doc)
  {
    if doc == [] then []
    else EndpointsEvents(pf, o, doc[..|doc| - 1]) + EndpointEvents(pf, o, doc[|doc| - 1])
  }

  function DocumentEvents(pf: Platform, o: Orders, doc: seq<Props>): seq<Event>
    requires DocWritable(o, doc)
  {
    [Start("endpoint-descriptions", [])] + [Chars("\n")] + EndpointsEvents(pf, o, doc) + [End("endpoint-descriptions")]
  }

  // ---- The parser handler -------------------------------------------------------------------------------

  datatype State = State(
    done: seq<Props>, props: Props, buffer: string,
    inProperty: bool, inArray: bool, inList: bool, inSet: bool, inXml: bool, inValue: bool,
    name: Option<string>, value: Option<string>, kind: Option<Type>, values: seq<Scalar>)

  const FRESH := State([], map[], "", false, false, false, false, false, false, None, None, None, [])

  function Attribute(attributes: seq<(string, string)>, name: string): Option<string> {
    if attributes == [] then None
    else if attributes[0].0 == name then Some(attributes[0].1)
    else Attribute(attributes[1..], name)
  }

  function Rendered(attributes: seq<(string, string)>): string {
    if attributes == [] then ""
    else
      var last := attributes[|attributes| - 1];
      Rendered(attributes[..|attributes| - 1]) + " " + last.0 + "=\"" + last.1 + "\""
  }

  function OnStart(s: State, name: string, attributes: seq<(string, string)>): State {
    if s.inXml then s.(buffer := s.buffer + "<" + name + Rendered(attributes) + ">")
    else if name == "property" then
      s.(inProperty := true, name := Attribute(attributes, "name"),
         kind := Some(TypeNamed(Attribute(attributes, "value-type"))),
         value := Attribute(attributes, "value"), values := [])
    else Inside(s, name)
  }

  function Marked(was: bool, inProperty: bool, name: string, tag: string): bool {
    was || (inProperty && name == tag)
  }

  /** Any other element; only inside a property does it mean anything. */
  function Inside(s: State, name: string): State {
    InsideContent(InsideCollection(s, name), name)
  }

  function InsideCollection(s: State, name: string): State {
    s.(inArray := Marked(s.inArray, s.inProperty, name, "array"),
       inList := Marked(s.inList, s.inProperty, name, "list"),
       inSet := Marked(s.inSet, s.inProperty, name, "set"))
  }

  function InsideContent(s: State, name: string): State {
    s.(buffer := "",
       inXml := Marked(s.inXml, s.inProperty, name, "xml"),
       inValue := Marked(s.inValue, s.inProperty, name, "value"))
  }

  function Members(items: seq<Scalar>): set<Scalar> {
    set x | x in items
  }

  predicate Primitive(t: Type) {
    t.NumberType? || t.CharType? || t.FloatingType? || t.BooleanType?
  }

  /** The primitive types are those with a class of their own. */
  lemma PrimitiveIs(t: Type)
    ensures Primitive(t) <==> Boxed(t) != t
  {
  }

  /** The value of the property that ends here; None where building it throws. */
  function Collected(pf: Platform, s: State): Option<Value> {
    if s.inArray then
      if s.kind.None? || (Primitive(s.kind.value) && Null in s.values) then None
      else Some(Array(s.kind.value, s.values))
    else if s.inList then Some(List(s.values))
    else if s.inSet then Some(Set(Members(s.values)))
    else if s.value.Some? then
      if s.kind.None? then None
      else match Parse(pf, s.kind.value, s.value.value) case Some(x) => Some(Single(x)) case None => None
    else Some(Single(Text(s.buffer)))
  }

  function OnEnd(pf: Platform, s: State, name: string): Option<State> {
    if s.inXml then
      Some(if name == "xml" then s.(inXml := false) else s.(buffer := s.buffer + "</" + name + ">"))
    else if name == "endpoint-description" then Some(s.(done := s.done + [s.props], props := map[]))
    else if name == "property" then
      var collected := Collected(pf, s);
      if collected.None? || s.name.None? then None
      else Some(s.(props := s.props[s.name.value := collected.value],
                   inProperty := false, inArray := false, inList := false, inSet := false, inXml := false))
    else if name == "value" then
      if s.kind.None? then None
      else match Parse(pf, s.kind.value, s.buffer)
        case Some(x) => Some(s.(values := s.values + [x], inValue := false))
        case None => None
    else Some(s)
  }

  function OnChars(s: State, text: string): State {
    if s.inValue || s.inXml then s.(buffer := s.buffer + text) else s
  }

  function Handle(pf: Platform, s: State, e: Event): Option<State> {
    match e
    case Start(name, attributes) => Some(OnStart(s, name, attributes))
    case End(name) => OnEnd(pf, s, name)
    case Chars(text) => Some(OnChars(s, text))
    case Fatal => None
  }

  function Run(pf: Platform, s: State, events: seq<Event>): Option<State>
    decreases |events|
  {
    if events == [] then Some(s)
    else match Handle(pf, s, events[0])
      case Some(s') => Run(pf, s', events[1..])
      case None => None
  }

  // ---- How the parser cuts character data does not matter ---------------------------------------------------

  /** Character data in one piece. */
  function Joined(events: seq<Event>): seq<Event> {
    if events == [] then []
    else
      var e, rest := events[0], Joined(events[1..]);
      if !e.Chars? then [e] + rest
      else if e.text == "" then rest
      else if rest != [] && rest[0].Chars? then [Chars(e.text + rest[0].text)] + rest[1..]
      else [e] + rest
  }

  lemma {:induction false} JoinedRuns(pf: Platform, s: State, events: seq<Event>)
    ensures Run(pf, s, Joined(events)) == Run(pf, s, events)
    decreases |events|
  {
    if events != [] {
      var e, rest := events[0], Joined(events[1..]);
      match Handle(pf, s, e)
      case None =>
      case Some(s') =>
        JoinedRuns(pf, s', events[1..]);
        if e.Chars? {
          if e.text == "" {
            assert s.buffer + e.text == s.buffer;
          } else if rest != [] && rest[0].Chars? {
            var one := Chars(e.text + rest[0].text);
            assert s.buffer + one.text == s.buffer + e.text + rest[0].text;
            assert Joined(events)[1..] == rest[1..];
          } else {
            assert Joined(events)[1..] == rest;
          }
        } else {
          assert Joined(events)[1..] == rest;
        }
    }
  }

  // ---- Reading back what was written ------------------------------------------------------------------------

  lemma {:induction false} RunAppend(pf: Platform, s: State, a: seq<Event>, b: seq<Event>)
    ensures Run(pf, s, a + b)
         == match Run(pf, s, a) case Some(s') => Run(pf, s', b) case None => None
    decreases |a|
  {
    if a == [] {
      assert a + b == b;
    } else {
      assert (a + b)[1..] == a[1..] + b;
      match Handle(pf, s, a[0])
      case Some(s') => RunAppend(pf, s', a[1..], b);
      case None =>
    }
  }

  lemma RunFirst(pf: Platform, s: State, e: Event, rest: seq<Event>)
    ensures Run(pf, s, [e] + rest)
         == match Handle(pf, s, e) case Some(s') => Run(pf, s', rest) case None => None
  {
    assert ([e] + rest)[1..] == rest;
  }

  lemma RunOne(pf: Platform, s: State, e: Event)
    ensures Run(pf, s, [e]) == Handle(pf, s, e)
  {
    assert [e] + [] == [e];
    RunFirst(pf, s, e, []);
  }

  /** Between properties; nothing else about the state matters to what follows. */
  predicate Idle(s: State) {
    !s.inProperty && !s.inArray && !s.inList && !s.inSet && !s.inXml && !s.inValue
  }

  /** Inside a property, between its elements. */
  predicate Open(s: State, t: Type) {
    s.inProperty && s.kind == Some(t) && !s.inXml && !s.inValue
  }

  lemma ItemRead(pf: Platform, s: State, t: Type, x: Scalar)
    requires Open(s, t)
    ensures Run(pf, s, ItemEvents(x))
         == match ItemParse(pf, t, ToText(x))
            case Some(y) => Some(s.(values := s.values + [y], buffer := Content(ToText(x))))
            case None => None
  {
    var item := ItemText(ToText(x));
    var last := [End("value"), Chars("\n")];
    var start := [Start("value", [])] + ([item] + last);
    assert ItemEvents(x) == [Chars("         ")] + start;
    RunFirst(pf, s, Chars("         "), start);
    RunFirst(pf, s, Start("value", []), [item] + last);
    ItemInside(pf, s.(buffer := "", inValue := true), t, ToText(x));
  }

  lemma ItemInside(pf: Platform, s: State, t: Type, text: string)
    requires s.kind == Some(t) && !s.inXml && s.inValue && s.buffer == ""
    ensures Run(pf, s, [ItemText(text)] + [End("value"), Chars("\n")])
         == match ItemParse(pf, t, text)
            case Some(y) => Some(s.(values := s.values + [y], inValue := false, buffer := Content(text)))
            case None => None
  {
    RunFirst(pf, s, ItemText(text), [End("value"), Chars("\n")]);
    if AllLegal(text) {
      assert "" + Content(text) == Content(text);
      ItemEnds(pf, s.(buffer := Content(text)), t);
    }
  }

  lemma ItemEnds(pf: Platform, s: State, t: Type)
    requires s.kind == Some(t) && !s.inXml
    ensures Run(pf, s, [End("value"), Chars("\n")])
         == match Parse(pf, t, s.buffer)
            case Some(y) => Some(s.(values := s.values + [y], inValue := false))
            case None => None
  {
    assert [End("value"), Chars("\n")] == [End("value")] + [Chars("\n")];
    RunFirst(pf, s, End("value"), [Chars("\n")]);
    match Parse(pf, t, s.buffer)
    case Some(y) => RunOne(pf, s.(values := s.values + [y], inValue := false), Chars("\n"));
    case None =>
  }

  function ParseAll(pf: Platform, t: Type, items: seq<Scalar>): Option<seq<Scalar>> {
    if items == [] then Some([])
    else match ParseAll(pf, t, items[..|items| - 1])
      case None => None
      case Some(ys) =>
        match ItemParse(pf, t, ToText(items[|items| - 1]))
        case None => None
        case Some(y) => Some(ys + [y])
  }

  lemma {:induction false} ItemsRead(pf: Platform, s: State, t: Type, items: seq<Scalar>)
    requires Open(s, t)
    ensures Run(pf, s, ItemsEvents(items))
         == match ParseAll(pf, t, items)
            case None => None
            case Some(ys) =>
              Some(s.(values := s.values + ys,
                      buffer := if items == [] then s.buffer else Content(ToText(items[|items| - 1]))))
  {
    if items == [] {
      assert s.values + [] == s.values;
    } else {
      var before, x := items[..|items| - 1], items[|items| - 1];
      ItemsRead(pf, s, t, before);
      RunAppend(pf, s, ItemsEvents(before), ItemEvents(x));
      match ParseAll(pf, t, before)
      case None =>
      case Some(ys) =>
        var text := if before == [] then s.buffer else Content(ToText(before[|before| - 1]));
        var mid := s.(values := s.values + ys, buffer := text);
        ItemRead(pf, mid, t, x);
        if ItemParse(pf, t, ToText(x)).Some? {
          Regroup(s.values, ys, [ItemParse(pf, t, ToText(x)).value]);
        }
    }
  }

  lemma AttributesRead(k: string, t: Type, value: Option<string>)
    ensures var a := Attributes(k, t, value);
            && Attribute(a, "name") == Some(k) && Attribute(a, "value") == value
            && TypeNamed(Attribute(a, "value-type")) == t
  {
    NamedAgain(t);
    var rest := if value.None? then [] else [("value", value.value)];
    var typed := (if t == StringClass then [] else [("value-type", NameOf(t))]) + rest;
    assert Attributes(k, t, value) == [("name", k)] + typed;
    assert t == StringClass ==> typed == rest;
    assert value.Some? ==> rest == [("value", value.value)] + [];
    forall name
      ensures Attribute([("name", k)] + typed, name) == if name == "name" then Some(k) else Attribute(typed, name)
      ensures t != StringClass ==>
                Attribute(typed, name) == if name == "value-type" then Some(NameOf(t)) else Attribute(rest, name)
      ensures Attribute(rest, name) == if name == "value" then value else None
    {
      AttributeFirst("name", k, typed, name);
      AttributeFirst("value-type", NameOf(t), rest, name);
      if value.Some? {
        AttributeFirst("value", value.value, [], name);
      }
    }
  }

  lemma AttributeFirst(n: string, v: string, rest: seq<(string, string)>, name: string)
    ensures Attribute([(n, v)] + rest, name) == if n == name then Some(v) else Attribute(rest, name)
  {
    assert ([(n, v)] + rest)[1..] == rest;
  }

  /** The state in which the elements of a collection are read. */
  function Opened(s: State, k: string, t: Type, tag: string): State {
    s.(inProperty := true, name := Some(k), kind := Some(t), value := None, values := [], buffer := "",
       inArray := tag == "array", inList := tag == "list", inSet := tag == "set")
  }

  predicate IsTag(tag: string) {
    tag == "array" || tag == "list" || tag == "set"
  }

  lemma OpeningRead(pf: Platform, s: State, k: string, t: Type, tag: string)
    requires Idle(s) && IsTag(tag)
    ensures Run(pf, s, Opening(k, t, tag)) == if AllLegal(k) then Some(Opened(s, Attr(k), t, tag)) else None
  {
    var property := StartProperty(k, t, None);
    var last := [Start(tag, [])] + [Chars("\n")];
    var blank := [Chars("\n      ")] + last;
    var start := [property] + blank;
    assert Opening(k, t, tag) == [Chars("   ")] + start;
    RunFirst(pf, s, Chars("   "), start);
    RunFirst(pf, s, property, blank);
    if AllLegal(k) {
      AttributesRead(Attr(k), t, None);
      var s1, inside := OnStart(s, "property", property.attributes), Opened(s, Attr(k), t, tag);
      RunFirst(pf, s1, Chars("\n      "), last);
      RunFirst(pf, s1, Start(tag, []), [Chars("\n")]);
      assert OnStart(s1, tag, []) == inside;
      RunOne(pf, inside, Chars("\n"));
    }
  }

  /** The state after a property. */
  function Entered(s: State, v: Value): State
    requires s.name.Some?
  {
    s.(props := s.props[s.name.value := v],
       inProperty := false, inArray := false, inList := false, inSet := false)
  }

  lemma ClosingRead(pf: Platform, s: State, tag: string)
    requires !s.inXml && !s.inValue && s.name.Some? && IsTag(tag)
    ensures Run(pf, s, Closing(tag))
         == match Collected(pf, s) case Some(v) => Some(Entered(s, v)) case None => None
  {
    var last := [End("property")] + [Chars("\n")];
    var blank := [Chars("\n   ")] + last;
    var end := [End(tag)] + blank;
    assert Closing(tag) == [Chars("      ")] + end;
    RunFirst(pf, s, Chars("      "), end);
    RunFirst(pf, s, End(tag), blank);
    RunFirst(pf, s, Chars("\n   "), last);
    RunFirst(pf, s, End("property"), [Chars("\n")]);
    match Collected(pf, s)
    case Some(v) => RunOne(pf, Entered(s, v), Chars("\n"));
    case None =>
  }

  // ---- What a property comes back as --------------------------------------------------------------------

  /** The handler takes the end of any element of this name for the end of the XML. */
  predicate Plain(pf: Platform, v: Value) {
    AsXml(pf, v) ==> End("xml") !in pf.xml(v.item.text).value
  }

  function OneMarkup(attribute: (string, string)): string {
    " " + attribute.0 + "=\"" + attribute.1 + "\""
  }

  /** The attributes as markup. */
  function MarkupOf(attributes: seq<(string, string)>): string {
    if attributes == [] then "" else OneMarkup(attributes[0]) + MarkupOf(attributes[1..])
  }

  function Markup(e: Event): string {
    match e
    case Start(name, attributes) => "<" + name + MarkupOf(attributes) + ">"
    case End(name) => "</" + name + ">"
    case Chars(text) => text
    case Fatal => ""
  }

  /** The markup of parser events, nothing in it escaped. */
  function Markups(events: seq<Event>): string {
    if events == [] then "" else Markup(events[0]) + Markups(events[1..])
  }

  lemma RenderedOne(attributes: seq<(string, string)>, a: (string, string))
    ensures Rendered(attributes + [a]) == Rendered(attributes) + OneMarkup(a)
  {
    var r := Rendered(attributes);
    assert (attributes + [a])[..|attributes|] == attributes;
    assert r + " " + a.0 + "=\"" + a.1 + "\"" == r + OneMarkup(a);
  }

  lemma {:induction false} RenderedIs(attributes: seq<(string, string)>, more: seq<(string, string)>)
    ensures Rendered(attributes + more) == Rendered(attributes) + MarkupOf(more)
    decreases |more|
  {
    if more == [] {
      assert attributes + more == attributes;
    } else {
      var first, rest := more[0], more[1..];
      assert attributes + [first] + rest == attributes + more;
      RenderedIs(attributes + [first], rest);
      RenderedOne(attributes, first);
      Regroup(Rendered(attributes), OneMarkup(first), MarkupOf(rest));
    }
  }

  /** Embedded XML is collected as markup. */
  lemma {:induction false} XmlContentRead(pf: Platform, s: State, content: seq<Event>)
    requires s.inXml && End("xml") !in content
    ensures Run(pf, s, content) == if Fatal in content then None else Some(s.(buffer := s.buffer + Markups(content)))
    decreases |content|
  {
    if content == [] {
      assert s.buffer + "" == s.buffer;
    } else {
      var e, rest := content[0], content[1..];
      assert content == [e] + rest;
      if e != Fatal {
        XmlEventRead(pf, s, e);
        XmlContentRead(pf, s.(buffer := s.buffer + Markup(e)), rest);
        Regroup(s.buffer, Markup(e), Markups(rest));
      }
    }
  }

  lemma XmlEventRead(pf: Platform, s: State, e: Event)
    requires s.inXml && e != End("xml") && e != Fatal
    ensures Handle(pf, s, e) == Some(s.(buffer := s.buffer + Markup(e)))
  {
    match e
    case Start(name, attributes) =>
      RenderedIs([], attributes);
      assert [] + attributes == attributes;
      assert s.buffer + "<" + name + Rendered(attributes) + ">" == s.buffer + ("<" + name + MarkupOf(attributes) + ">");
    case End(name) =>
      assert s.buffer + "</" + name + ">" == s.buffer + ("</" + name + ">");
    case Chars(_) =>
  }

  /** The value a written property is read as; None where reading it throws. */
  function ReadBack(pf: Platform, o: Orders, v: Value): Option<Value>
    requires Writable(o, v)
  {
    var t := TypeOf(o, v).value;
    if AsXml(pf, v) then
      var content := pf.xml(v.item.text).value;
      if Fatal in content then None else Some(Single(Text(Markups(content))))
    else if v.Single? then
      match AttrParse(pf, t, ToText(v.item)) case Some(y) => Some(Single(y)) case None => None
    else
      match ParseAll(pf, t, Items(o, v))
      case None => None
      case Some(ys) => Gathered(v, t, ys)
  }

  function Gathered(v: Value, t: Type, ys: seq<Scalar>): Option<Value> {
    match v
    case Array(_, _) => if Primitive(t) && Null in ys then None else Some(Array(t, ys))
    case List(_) => Some(List(ys))
    case _ => Some(Set(Members(ys)))
  }

  /** A name that the parser does not accept spoils the property. */
  function NamedBack(pf: Platform, o: Orders, k: string, v: Value): Option<Value>
    requires Writable(o, v)
  {
    if AllLegal(k) then ReadBack(pf, o, v) else None
  }

  /** After a property the handler is idle again and only that property was added. */
  predicate Adds(s: State, k: string, r: Option<Value>, s': Option<State>) {
    if r.None? then s'.None?
    else s'.Some? && Idle(s'.value) && s'.value.done == s.done && s'.value.props == s.props[k := r.value]
  }

  lemma MultiRead(pf: Platform, o: Orders, s: State, k: string, v: Value)
    requires Idle(s) && Writable(o, v) && !v.Single?
    ensures Adds(s, Attr(k), NamedBack(pf, o, k, v), Run(pf, s, PropertyEvents(pf, o, k, v)))
  {
    var t, tag, items := TypeOf(o, v).value, Tag(v), Items(o, v);
    OpeningRead(pf, s, k, t, tag);
    Regroup(Opening(k, t, tag), ItemsEvents(items), Closing(tag));
    RunAppend(pf, s, Opening(k, t, tag), ItemsEvents(items) + Closing(tag));
    if AllLegal(k) {
      MultiInside(pf, o, s, Attr(k), v);
    }
  }

  lemma MultiInside(pf: Platform, o: Orders, s: State, k: string, v: Value)
    requires Idle(s) && Writable(o, v) && !v.Single?
    ensures var inside := Opened(s, k, TypeOf(o, v).value, Tag(v));
            Adds(s, k, ReadBack(pf, o, v), Run(pf, inside, ItemsEvents(Items(o, v)) + Closing(Tag(v))))
  {
    var t, tag, items := TypeOf(o, v).value, Tag(v), Items(o, v);
    var inside := Opened(s, k, t, tag);
    RunAppend(pf, inside, ItemsEvents(items), Closing(tag));
    ItemsRead(pf, inside, t, items);
    match ParseAll(pf, t, items)
    case None =>
    case Some(ys) =>
      assert inside.values + ys == ys;
      ClosingRead(pf, Run(pf, inside, ItemsEvents(items)).value, tag);
  }

  lemma SingleRuns(pf: Platform, s: State, k: string, t: Type, text: string)
    requires Idle(s)
    ensures var r := match AttrParse(pf, t, text) case Some(y) => Some(Single(y)) case None => None;
            Adds(s, Attr(k), if AllLegal(k) then r else None, Run(pf, s, SingleEvents(k, t, text)))
  {
    var property := StartProperty(k, t, Some(text));
    var last := [End("property")] + [Chars("\n")];
    assert SingleEvents(k, t, text) == [Chars("   ")] + ([property] + last);
    RunFirst(pf, s, Chars("   "), [property] + last);
    RunFirst(pf, s, property, last);
    if AllLegal(k) && AllLegal(text) {
      SingleEnds(pf, s, Attr(k), t, Attr(text));
    }
  }

  lemma SingleEnds(pf: Platform, s: State, k: string, t: Type, text: string)
    requires Idle(s)
    ensures var r := match Parse(pf, t, text) case Some(y) => Some(Single(y)) case None => None;
            var s1 := OnStart(s, "property", Attributes(k, t, Some(text)));
            Adds(s, k, r, Run(pf, s1, [End("property")] + [Chars("\n")]))
  {
    AttributesRead(k, t, Some(text));
    var s1 := OnStart(s, "property", Attributes(k, t, Some(text)));
    RunFirst(pf, s1, End("property"), [Chars("\n")]);
    match Parse(pf, t, text)
    case Some(y) =>
      assert Handle(pf, s1, End("property")) == Some(Entered(s1, Single(y)));
      RunOne(pf, Entered(s1, Single(y)), Chars("\n"));
    case None =>
  }

  /** The state in which embedded XML is read. */
  function InXml(s: State, k: string): State {
    s.(inProperty := true, name := Some(k), kind := Some(StringClass), value := None, values := [], buffer := "",
       inXml := true)
  }

  lemma XmlOpens(pf: Platform, s: State, k: string, rest: seq<Event>)
    requires Idle(s)
    ensures Run(pf, s, [Chars("    "), StartProperty(k, StringClass, None), Chars("\n      "), Start("xml", [])] + rest)
         == if AllLegal(k) then Run(pf, InXml(s, Attr(k)), rest) else None
  {
    var property := StartProperty(k, StringClass, None);
    var third := [Start("xml", [])] + rest;
    var second := [Chars("\n      ")] + third;
    assert [Chars("    "), property, Chars("\n      "), Start("xml", [])] + rest
        == [Chars("    ")] + ([property] + second);
    RunFirst(pf, s, Chars("    "), [property] + second);
    RunFirst(pf, s, property, second);
    if AllLegal(k) {
      AttributesRead(Attr(k), StringClass, None);
      var s1 := OnStart(s, "property", property.attributes);
      RunFirst(pf, s1, Chars("\n      "), third);
      RunFirst(pf, s1, Start("xml", []), rest);
      assert OnStart(s1, "xml", []) == InXml(s, Attr(k));
    }
  }

  lemma XmlCloses(pf: Platform, s: State, k: string, text: string)
    requires Idle(s)
    ensures var end := [End("xml"), Chars("\n    "), End("property"), Chars("\n")];
            Run(pf, InXml(s, k).(buffer := text), end)
            == Some(Entered(InXml(s, k).(buffer := text, inXml := false), Single(Text(text))))
  {
    var inside := InXml(s, k).(buffer := text);
    var after := inside.(inXml := false);
    var last := [End("property")] + [Chars("\n")];
    assert [End("xml"), Chars("\n    "), End("property"), Chars("\n")] == [End("xml")] + ([Chars("\n    ")] + last);
    RunFirst(pf, inside, End("xml"), [Chars("\n    ")] + last);
    RunFirst(pf, after, Chars("\n    "), last);
    RunFirst(pf, after, End("property"), [Chars("\n")]);
    RunOne(pf, Entered(after, Single(Text(text))), Chars("\n"));
  }

  lemma XmlRuns(pf: Platform, s: State, k: string, content: seq<Event>)
    requires Idle(s) && End("xml") !in content
    ensures var r := if Fatal in content then None else Some(Single(Text(Markups(content))));
            Adds(s, Attr(k), if AllLegal(k) then r else None, Run(pf, s, XmlEvents(k, content)))
  {
    var end := [End("xml"), Chars("\n    "), End("property"), Chars("\n")];
    var start := [Chars("    "), StartProperty(k, StringClass, None), Chars("\n      "), Start("xml", [])];
    assert XmlEvents(k, content) == start + (content + end);
    XmlOpens(pf, s, k, content + end);
    if AllLegal(k) {
      var inside := InXml(s, Attr(k));
      RunAppend(pf, inside, content, end);
      XmlContentRead(pf, inside, content);
      assert "" + Markups(content) == Markups(content);
      XmlCloses(pf, s, Attr(k), Markups(content));
    }
  }

  /** Whatever came before, a property adds its own value and leaves no trace. */
  lemma PropertyRead(pf: Platform, o: Orders, s: State, k: string, v: Value)
    requires Idle(s) && Writable(o, v) && Plain(pf, v)
    ensures Adds(s, Attr(k), NamedBack(pf, o, k, v), Run(pf, s, PropertyEvents(pf, o, k, v)))
  {
    if AsXml(pf, v) {
      XmlRuns(pf, s, k, pf.xml(v.item.text).value);
    } else if v.Single? {
      SingleRuns(pf, s, k, TypeOf(o, v).value, ToText(v.item));
    } else {
      MultiRead(pf, o, s, k, v);
    }
  }

  // ---- Which values survive ------------------------------------------------------------------------------

  /** What Java's typing guarantees of a value: numbers in range, arrays of their component type, or
      null. */
  predicate Typed(pf: Platform, o: Orders, v: Value) {
    && (forall x <- Items(o, v) :: Real(pf, x))
    && (v.Array? ==> forall x <- v.items :: x.Null? || ClassOf(x) == Some(Boxed(v.component)))
  }

  /** An array of what is read as one type is such a value, nulls of the primitive int included. */
  lemma ArrayTyped(pf: Platform, o: Orders, t: Type, texts: seq<string>, items: seq<Scalar>)
    requires Stable(pf) && |items| == |texts|
    requires forall i | 0 <= i < |items| :: Parse(pf, t, texts[i]) == Some(items[i])
    ensures Typed(pf, o, Array(t, items))
  {
    forall x | x in items ensures Real(pf, x) && (x.Null? || ClassOf(x) == Some(Boxed(t))) {
      var i :| 0 <= i < |items| && items[i] == x;
      ParseReal(pf, t, texts[i]);
      ParseClass(pf, t, texts[i]);
    }
  }

  /** All text is clean, XML comes out of the parser as it went in, every element is of the class of the
      first, and an array of int is empty. */
  predicate Faithful(pf: Platform, o: Orders, v: Value) {
    match v
    case Single(x) =>
      if AsXml(pf, v) then Fatal !in pf.xml(x.text).value && Markups(pf.xml(x.text).value) == x.text
      else AttrClean(ToText(x))
    case Array(t, items) => (t == NumberType(Int) ==> items == []) && forall x <- items :: ContentClean(ToText(x))
    case _ => forall x <- Items(o, v) :: ClassOf(x) == ClassOf(Items(o, v)[0]) && ContentClean(ToText(x))
  }

  lemma {:induction false} ParseAllBack(pf: Platform, t: Type, items: seq<Scalar>)
    requires forall x <- items :: ItemParse(pf, t, ToText(x)) == Some(x)
    ensures ParseAll(pf, t, items) == Some(items)
  {
    if items != [] {
      var before, last := items[..|items| - 1], items[|items| - 1];
      assert items == before + [last] && last in items;
      ParseAllBack(pf, t, before);
      assert ItemParse(pf, t, ToText(last)) == Some(last);
    }
  }

  lemma {:induction false} ParseAllClass(pf: Platform, t: Type, items: seq<Scalar>)
    requires Sane(pf) && ParseAll(pf, t, items).Some?
    ensures |ParseAll(pf, t, items).value| == |items|
    ensures forall y <- ParseAll(pf, t, items).value ::
              && ContentClean(ToText(y))
              && if t == NumberType(Int) then y == Null else ClassOf(y) == Some(Boxed(t))
  {
    if items != [] {
      ParseAllClass(pf, t, items[..|items| - 1]);
      var text := ToText(items[|items| - 1]);
      ParseClass(pf, t, Content(text));
      ItemParseClean(pf, t, text);
    }
  }

  lemma FaithfulForward(pf: Platform, o: Orders, v: Value)
    requires Sane(pf) && Fair(o) && Writable(o, v) && Typed(pf, o, v) && Faithful(pf, o, v)
    ensures ReadBack(pf, o, v) == Some(v)
  {
    var t, items := TypeOf(o, v).value, Items(o, v);
    if v.Single? {
      assert v.item in items;
      AttrParseExactly(pf, v.item);
    } else {
      forall x <- items
        ensures ItemParse(pf, t, ToText(x)) == Some(x)
      {
        ContentIs(ToText(x));
        ParseBack(pf, t, x);
      }
      ParseAllBack(pf, t, items);
      if v.Set? {
        assert Members(items) == v.members;
      }
    }
  }

  lemma FaithfulBackward(pf: Platform, o: Orders, v: Value)
    requires Sane(pf) && Fair(o) && Writable(o, v) && Typed(pf, o, v) && ReadBack(pf, o, v) == Some(v)
    ensures Faithful(pf, o, v)
  {
    if v.Single? {
      assert v.item in Items(o, v);
      AttrParseExactly(pf, v.item);
    } else {
      GatheredBackward(pf, o, v);
    }
  }

  lemma GatheredBackward(pf: Platform, o: Orders, v: Value)
    requires Sane(pf) && Fair(o) && Writable(o, v) && !v.Single? && ReadBack(pf, o, v) == Some(v)
    ensures Faithful(pf, o, v)
  {
    var t, items := TypeOf(o, v).value, Items(o, v);
    ParseAllClass(pf, t, items);
    var ys := ParseAll(pf, t, items).value;
    if v.Array? {
      assert Null in ys || t != NumberType(Int) || items == [];
    } else {
      forall x <- items
        ensures x in ys
      {
      }
    }
  }

  /** A value comes back as itself if and only if its text is clean, its elements agree in class and it
      is not a non-empty array of int. */
  lemma ValueExactly(pf: Platform, o: Orders, v: Value)
    requires Sane(pf) && Fair(o) && Writable(o, v) && Typed(pf, o, v)
    ensures ReadBack(pf, o, v) == Some(v) <==> Faithful(pf, o, v)
  {
    if Faithful(pf, o, v) {
      FaithfulForward(pf, o, v);
    }
    if ReadBack(pf, o, v) == Some(v) {
      FaithfulBackward(pf, o, v);
    }
  }

  // ---- Documents -----------------------------------------------------------------------------------------

  function PropsBack(pf: Platform, o: Orders, p: Props, order: seq<string>): Option<Props>
    requires AllWritable(o, p, order)
  {
    if order == [] then Some(map[])
    else
      var k := order[|order| - 1];
      match PropsBack(pf, o, p, order[..|order| - 1])
      case None => None
      case Some(m) => match NamedBack(pf, o, k, p[k]) case None => None case Some(v) => Some(m[Attr(k) := v])
  }

  predicate AllPlain(pf: Platform, p: Props) {
    forall k | k in p :: Plain(pf, p[k])
  }

  lemma {:induction false} PropsRead(pf: Platform, o: Orders, s: State, p: Props, order: seq<string>)
    requires Idle(s) && s.props == map[] && AllWritable(o, p, order) && AllPlain(pf, p)
    ensures var s' := Run(pf, s, PropsEvents(pf, o, p, order));
            match PropsBack(pf, o, p, order)
            case None => s'.None?
            case Some(m) => s'.Some? && Idle(s'.value) && s'.value.done == s.done && s'.value.props == m
  {
    if order != [] {
      var before, k := order[..|order| - 1], order[|order| - 1];
      PropsRead(pf, o, s, p, before);
      RunAppend(pf, s, PropsEvents(pf, o, p, before), PropertyEvents(pf, o, k, p[k]));
      match Run(pf, s, PropsEvents(pf, o, p, before))
      case None =>
      case Some(mid) => PropertyRead(pf, o, mid, k, p[k]);
    }
  }

  function EndpointBack(pf: Platform, o: Orders, p: Props): Option<Props>
    requires AllWritable(o, p, o.keys(p.Keys))
  {
    PropsBack(pf, o, p, o.keys(p.Keys))
  }

  predicate Between(s: State) {
    Idle(s) && s.props == map[]
  }

  lemma BracketsRead(pf: Platform, s: State)
    requires Idle(s)
    ensures Run(pf, s, ENDPOINT_OPENING) == Some(s.(buffer := ""))
    ensures Run(pf, s, ENDPOINT_CLOSING) == Some(s.(done := s.done + [s.props], props := map[]))
  {
    var opening := Start("endpoint-description", []);
    assert ENDPOINT_OPENING == [Chars("  ")] + ([opening] + [Chars("\n")]);
    RunFirst(pf, s, Chars("  "), [opening] + [Chars("\n")]);
    RunFirst(pf, s, opening, [Chars("\n")]);
    RunOne(pf, s.(buffer := ""), Chars("\n"));
    var closing := End("endpoint-description");
    assert ENDPOINT_CLOSING == [Chars("  ")] + ([closing] + [Chars("\n")]);
    RunFirst(pf, s, Chars("  "), [closing] + [Chars("\n")]);
    RunFirst(pf, s, closing, [Chars("\n")]);
    RunOne(pf, s.(done := s.done + [s.props], props := map[]), Chars("\n"));
  }

  lemma EndpointRead(pf: Platform, o: Orders, s: State, p: Props)
    requires Between(s) && AllWritable(o, p, o.keys(p.Keys)) && AllPlain(pf, p)
    ensures var s' := Run(pf, s, EndpointEvents(pf, o, p));
            match EndpointBack(pf, o, p)
            case None => s'.None?
            case Some(m) => s'.Some? && Between(s'.value) && s'.value.done == s.done + [m]
  {
    var s1, inner := s.(buffer := ""), PropsEvents(pf, o, p, o.keys(p.Keys));
    BracketsRead(pf, s);
    RunAppend(pf, s, ENDPOINT_OPENING, inner);
    RunAppend(pf, s, ENDPOINT_OPENING + inner, ENDPOINT_CLOSING);
    PropsRead(pf, o, s1, p, o.keys(p.Keys));
    match Run(pf, s1, inner)
    case None =>
    case Some(s2) => BracketsRead(pf, s2);
  }

  function DocBack(pf: Platform, o: Orders, doc: seq<Props>): Option<seq<Props>>
    requires DocWritable(o, doc)
  {
    if doc == [] then Some([])
    else match DocBack(pf, o, doc[..|doc| - 1])
      case None => None
      case Some(ms) => match EndpointBack(pf, o, doc[|doc| - 1]) case None => None case Some(m) => Some(ms + [m])
  }

  lemma {:induction false} EndpointsRead(pf: Platform, o: Orders, s: State, doc: seq<Props>)
    requires Between(s) && DocWritable(o, doc) && forall p <- doc :: AllPlain(pf, p)
    ensures var s' := Run(pf, s, EndpointsEvents(pf, o, doc));
            match DocBack(pf, o, doc)
            case None => s'.None?
            case Some(ms) => s'.Some? && Between(s'.value) && s'.value.done == s.done + ms
  {
    if doc == [] {
      assert s.done + [] == s.done;
    } else {
      var before, p := doc[..|doc| - 1], doc[|doc| - 1];
      EndpointsRead(pf, o, s, before);
      RunAppend(pf, s, EndpointsEvents(pf, o, before), EndpointEvents(pf, o, p));
      match Run(pf, s, EndpointsEvents(pf, o, before))
      case None =>
      case Some(mid) =>
        EndpointRead(pf, o, mid, p);
        if EndpointBack(pf, o, p).Some? {
          var ms, m := DocBack(pf, o, before).value, EndpointBack(pf, o, p).value;
          assert s.done + ms + [m] == s.done + (ms + [m]);
        }
    }
  }

  /** What the handler ends up with. */
  function ParsedDocument(pf: Platform, events: seq<Event>): Option<seq<Props>> {
    match Run(pf, FRESH, events) case None => None case Some(s) => Some(s.done)
  }

  lemma DocumentRead(pf: Platform, o: Orders, doc: seq<Props>)
    requires DocWritable(o, doc) && forall p <- doc :: AllPlain(pf, p)
    ensures ParsedDocument(pf, DocumentEvents(pf, o, doc)) == DocBack(pf, o, doc)
  {
    var root, inner := [Start("endpoint-descriptions", [])] + [Chars("\n")], EndpointsEvents(pf, o, doc);
    var end := End("endpoint-descriptions");
    RootRead(pf);
    RunAppend(pf, FRESH, root, inner);
    RunAppend(pf, FRESH, root + inner, [end]);
    EndpointsRead(pf, o, FRESH, doc);
    match DocBack(pf, o, doc)
    case None =>
    case Some(ms) =>
      var s := Run(pf, FRESH, inner).value;
      RunOne(pf, s, end);
      assert [] + ms == ms;
  }

  lemma RootRead(pf: Platform)
    ensures Run(pf, FRESH, [Start("endpoint-descriptions", [])] + [Chars("\n")]) == Some(FRESH)
  {
    RunFirst(pf, FRESH, Start("endpoint-descriptions", []), [Chars("\n")]);
    RunOne(pf, FRESH, Chars("\n"));
  }

  predicate AllFaithful(pf: Platform, o: Orders, p: Props) {
    forall k | k in p :: AttrClean(k) && Faithful(pf, o, p[k])
  }

  predicate AllTyped(pf: Platform, o: Orders, p: Props) {
    forall k | k in p :: Typed(pf, o, p[k])
  }

  lemma {:induction false} PropsBackForward(pf: Platform, o: Orders, p: Props, order: seq<string>)
    requires AllWritable(o, p, order)
    requires forall k <- order :: AttrClean(k) && ReadBack(pf, o, p[k]) == Some(p[k])
    ensures PropsBack(pf, o, p, order) == Some(Restricted(p, order))
  {
    if order == [] {
      assert Restricted(p, order) == map[];
    } else {
      var before, k := order[..|order| - 1], order[|order| - 1];
      assert order == before + [k] && k in order;
      AttrIs(k);
      RestrictedNext(p, before, k);
      PropsBackForward(pf, o, p, before);
    }
  }

  /** Every name that is read is clean. */
  lemma {:induction false} PropsBackClean(pf: Platform, o: Orders, p: Props, order: seq<string>)
    requires AllWritable(o, p, order) && PropsBack(pf, o, p, order).Some?
    ensures forall k | k in PropsBack(pf, o, p, order).value :: AttrClean(k)
  {
    if order != [] {
      var k := order[|order| - 1];
      PropsBackClean(pf, o, p, order[..|order| - 1]);
      assert NamedBack(pf, o, k, p[k]).Some? && AllLegal(k);
      AttrIs(k);
    }
  }

  lemma PropsBackNext(pf: Platform, o: Orders, p: Props, order: seq<string>)
    requires AllWritable(o, p, order) && order != [] && AttrClean(order[|order| - 1])
    requires PropsBack(pf, o, p, order).Some?
    ensures var before, last := PropsBack(pf, o, p, order[..|order| - 1]), order[|order| - 1];
            && before.Some? && ReadBack(pf, o, p[last]).Some?
            && PropsBack(pf, o, p, order).value == before.value[last := ReadBack(pf, o, p[last]).value]
  {
    AttrIs(order[|order| - 1]);
  }

  lemma {:induction false} PropsBackAt(pf: Platform, o: Orders, p: Props, order: seq<string>, k: string)
    requires AllWritable(o, p, order) && k in order && PropsBack(pf, o, p, order).Some?
    requires forall x <- order :: AttrClean(x)
    ensures var m := PropsBack(pf, o, p, order).value; k in m && ReadBack(pf, o, p[k]) == Some(m[k])
  {
    var before, last := order[..|order| - 1], order[|order| - 1];
    assert order == before + [last] && last in order;
    PropsBackNext(pf, o, p, order);
    if k != last {
      PropsBackAt(pf, o, p, before, k);
    }
  }

  lemma EndpointForward(pf: Platform, o: Orders, p: Props)
    requires Sane(pf) && Fair(o) && AllWritable(o, p, o.keys(p.Keys)) && AllTyped(pf, o, p) && AllFaithful(pf, o, p)
    ensures EndpointBack(pf, o, p) == Some(p)
  {
    var order := o.keys(p.Keys);
    forall k <- order
      ensures AttrClean(k) && ReadBack(pf, o, p[k]) == Some(p[k])
    {
      FaithfulForward(pf, o, p[k]);
    }
    PropsBackForward(pf, o, p, order);
    assert Restricted(p, order) == p;
  }

  lemma EndpointBackward(pf: Platform, o: Orders, p: Props)
    requires Sane(pf) && Fair(o) && AllWritable(o, p, o.keys(p.Keys)) && AllTyped(pf, o, p)
    requires EndpointBack(pf, o, p) == Some(p)
    ensures AllFaithful(pf, o, p)
  {
    var order := o.keys(p.Keys);
    PropsBackClean(pf, o, p, order);
    forall k | k in p
      ensures Faithful(pf, o, p[k])
    {
      PropsBackAt(pf, o, p, order, k);
      FaithfulBackward(pf, o, p[k]);
    }
  }

  /** The properties of an endpoint come back if and only if every name is clean and every value
      faithful. */
  lemma EndpointExactly(pf: Platform, o: Orders, p: Props)
    requires Sane(pf) && Fair(o) && AllWritable(o, p, o.keys(p.Keys)) && AllTyped(pf, o, p)
    ensures EndpointBack(pf, o, p) == Some(p) <==> AllFaithful(pf, o, p)
  {
    if EndpointBack(pf, o, p) == Some(p) {
      EndpointBackward(pf, o, p);
    }
    if AllFaithful(pf, o, p) {
      EndpointForward(pf, o, p);
    }
  }

  lemma SameLast<T>(a: seq<T>, b: seq<T>, x: T, y: T)
    ensures a + [x] == b + [y] <==> a == b && x == y
  {
    if a + [x] == b + [y] {
      assert (a + [x])[..|a|] == a && (b + [y])[..|b|] == b;
    }
  }

  lemma {:induction false} DocExactly(pf: Platform, o: Orders, doc: seq<Props>)
    requires Sane(pf) && Fair(o) && DocWritable(o, doc) && forall p <- doc :: AllTyped(pf, o, p)
    ensures DocBack(pf, o, doc) == Some(doc) <==> forall p <- doc :: AllFaithful(pf, o, p)
    ensures DocBack(pf, o, doc).Some? ==> |DocBack(pf, o, doc).value| == |doc|
  {
    if doc != [] {
      var before, p := doc[..|doc| - 1], doc[|doc| - 1];
      assert doc == before + [p];
      DocExactly(pf, o, before);
      EndpointExactly(pf, o, p);
      if DocBack(pf, o, doc).Some? {
        SameLast(DocBack(pf, o, before).value, before, EndpointBack(pf, o, p).value, p);
      }
    }
  }

  /** However the parser cuts the character data, a written document comes back as it was if and
      only if every value in it does. */
  lemma RoundTrip(pf: Platform, o: Orders, doc: seq<Props>, events: seq<Event>)
    requires Sane(pf) && Fair(o) && DocWritable(o, doc)
    requires forall p <- doc :: AllPlain(pf, p) && AllTyped(pf, o, p)
    requires Joined(events) == Joined(DocumentEvents(pf, o, doc))
    ensures ParsedDocument(pf, events) == Some(doc) <==> forall p <- doc :: AllFaithful(pf, o, p)
  {
    JoinedRuns(pf, FRESH, events);
    JoinedRuns(pf, FRESH, DocumentEvents(pf, o, doc));
    DocumentRead(pf, o, doc);
    DocExactly(pf, o, doc);
  }

  // ---- Writing step by step ------------------------------------------------------------------------------

  method WriteItems(items: seq<Scalar>) returns (written: Option<seq<Event>>)
    ensures written == if Null in items then None else Some(ItemsEvents(items))
  {
    var out := [];
    for i := 0 to |items|
      invariant Null !in items[..i] && out == ItemsEvents(items[..i])
    {
      if items[i].Null? {
        return None;
      }
      assert items[..i + 1][..i] == items[..i];
      out := out + ItemEvents(items[i]);
    }
    assert items[..|items|] == items;
    return Some(out);
  }

  method WriteProperty(pf: Platform, o: Orders, k: string, v: Value) returns (written: Option<seq<Event>>)
    ensures written == if Writable(o, v) then Some(PropertyEvents(pf, o, k, v)) else None
  {
    var t := TypeOf(o, v);
    if t.None? {
      return None;
    }
    if !v.Single? {
      var items := WriteItems(Items(o, v));
      if items.None? {
        return None;
      }
      return Some(Opening(k, t.value, Tag(v)) + items.value + Closing(Tag(v)));
    }
    if v.item.Text? && pf.xml(v.item.text).Some? {
      return Some(XmlEvents(k, pf.xml(v.item.text).value));
    }
    return Some(SingleEvents(k, t.value, ToText(v.item)));
  }

  lemma PropsEventsNext(pf: Platform, o: Orders, p: Props, order: seq<string>, i: nat)
    requires i < |order| && AllWritable(o, p, order[..i]) && order[i] in p && Writable(o, p[order[i]])
    ensures AllWritable(o, p, order[..i + 1])
    ensures PropsEvents(pf, o, p, order[..i + 1])
         == PropsEvents(pf, o, p, order[..i]) + PropertyEvents(pf, o, order[i], p[order[i]])
  {
    assert order[..i + 1][..i] == order[..i];
  }

  method WriteProps(pf: Platform, o: Orders, p: Props, order: seq<string>) returns (written: Option<seq<Event>>)
    requires forall k <- order :: k in p
    ensures written.Some? <==> AllWritable(o, p, order)
    ensures written.Some? ==> written.value == PropsEvents(pf, o, p, order)
  {
    var out := [];
    for i := 0 to |order|
      invariant AllWritable(o, p, order[..i]) && out == PropsEvents(pf, o, p, order[..i])
    {
      var k := order[i];
      var property := WriteProperty(pf, o, k, p[k]);
      if property.None? {
        assert k in order && !Writable(o, p[k]);
        return None;
      }
      PropsEventsNext(pf, o, p, order, i);
      out := out + property.value;
    }
    assert order[..|order|] == order;
    return Some(out);
  }

  method WriteEndpoint(pf: Platform, o: Orders, p: Props) returns (written: Option<seq<Event>>)
    requires forall k <- o.keys(p.Keys) :: k in p
    ensures written.Some? <==> AllWritable(o, p, o.keys(p.Keys))
    ensures written.Some? ==> written.value == EndpointEvents(pf, o, p)
  {
    var properties := WriteProps(pf, o, p, o.keys(p.Keys));
    if properties.None? {
      return None;
    }
    return Some(ENDPOINT_OPENING + properties.value + ENDPOINT_CLOSING);
  }

  lemma EndpointsEventsNext(pf: Platform, o: Orders, doc: seq<Props>, i: nat)
    requires i < |doc| && DocWritable(o, doc[..i]) && AllWritable(o, doc[i], o.keys(doc[i].Keys))
    ensures DocWritable(o, doc[..i + 1])
    ensures EndpointsEvents(pf, o, doc[..i + 1]) == EndpointsEvents(pf, o, doc[..i]) + EndpointEvents(pf, o, doc[i])
  {
    assert doc[..i + 1][..i] == doc[..i];
  }

  method WriteEndpoints(pf: Platform, o: Orders, doc: seq<Props>) returns (written: Option<seq<Event>>)
    requires forall p <- doc, k <- o.keys(p.Keys) :: k in p
    ensures written.Some? <==> DocWritable(o, doc)
    ensures written.Some? ==> written.value == EndpointsEvents(pf, o, doc)
  {
    var out := [];
    for i := 0 to |doc|
      invariant DocWritable(o, doc[..i]) && out == EndpointsEvents(pf, o, doc[..i])
    {
      var p := doc[i];
      assert p in doc;
      var endpoint := WriteEndpoint(pf, o, p);
      if endpoint.None? {
        return None;
      }
      EndpointsEventsNext(pf, o, doc, i);
      out := out + endpoint.value;
    }
    assert doc[..|doc|] == doc;
    return Some(out);
  }

  method WriteDocument(pf: Platform, o: Orders, doc: seq<Props>) returns (written: Option<seq<Event>>)
    requires Fair(o)
    ensures written.Some? <==> DocWritable(o, doc)
    ensures written.Some? ==> written.value == DocumentEvents(pf, o, doc)
  {
    var endpoints := WriteEndpoints(pf, o, doc);
    if endpoints.None? {
      return None;
    }
    var root := [Start("endpoint-descriptions", [])] + [Chars("\n")];
    return Some(root + endpoints.value + [End("endpoint-descriptions")]);
  }

  // ---- The handler object ----------------------------------------------------------------------------------

  lemma RenderedNext(start: string, attributes: seq<(string, string)>, i: nat)
    requires i < |attributes|
    ensures start + Rendered(attributes[..i + 1])
         == start + Rendered(attributes[..i]) + " " + attributes[i].0 + "=\"" + attributes[i].1 + "\""
  {
    assert attributes[..i + 1][..i] == attributes[..i];
  }

  class ParserHandler {
    const pf: Platform
    var done: seq<Props>
    var props: Props
    var buffer: string
    var inProperty: bool
    var inArray: bool
    var inList: bool
    var inSet: bool
    var inXml: bool
    var inValue: bool
    var name: Option<string>
    var value: Option<string>
    var kind: Option<Type>
    var values: seq<Scalar>

    ghost function Value(): State
      reads this
    {
      State(done, props, buffer, inProperty, inArray, inList, inSet, inXml, inValue, name, value, kind, values)
    }

    constructor (pf: Platform)
      ensures this.pf == pf && Value() == FRESH
    {
      this.pf := pf;
      done, props, buffer := [], map[], "";
      inProperty, inArray, inList, inSet, inXml, inValue := false, false, false, false, false, false;
      name, value, kind, values := None, None, None, [];
    }

    method AppendTag(qName: string, attributes: seq<(string, string)>)
      modifies `buffer
      ensures buffer == old(buffer) + "<" + qName + Rendered(attributes) + ">"
    {
      buffer := buffer + "<" + qName;
      ghost var start := buffer;
      assert start + [] == start;
      for i := 0 to |attributes|
        invariant buffer == start + Rendered(attributes[..i])
      {
        RenderedNext(start, attributes, i);
        buffer := buffer + " " + attributes[i].0 + "=\"" + attributes[i].1 + "\"";
      }
      assert attributes[..|attributes|] == attributes;
      buffer := buffer + ">";
    }

    method EnterCollection(qName: string)
      modifies `inArray, `inList, `inSet
      ensures Value() == InsideCollection(old(Value()), qName)
    {
      inArray := Marked(inArray, inProperty, qName, "array");
      inList := Marked(inList, inProperty, qName, "list");
      inSet := Marked(inSet, inProperty, qName, "set");
    }

    method EnterContent(qName: string)
      modifies `buffer, `inXml, `inValue
      ensures Value() == InsideContent(old(Value()), qName)
    {
      buffer := "";
      inXml := Marked(inXml, inProperty, qName, "xml");
      inValue := Marked(inValue, inProperty, qName, "value");
    }

    method StartElement(qName: string, attributes: seq<(string, string)>)
      modifies this
      ensures Value() == OnStart(old(Value()), qName, attributes)
    {
      if inXml {
        AppendTag(qName, attributes);
        return;
      }
      if qName == "property" {
        inProperty := true;
        name := Attribute(attributes, "name");
        kind := Some(TypeNamed(Attribute(attributes, "value-type")));
        value := Attribute(attributes, "value");
        values := [];
        return;
      }
      EnterCollection(qName);
      EnterContent(qName);
    }

    /** Builds the array element by element; storing a null into a primitive array throws. */
    method ValuesArray() returns (r: Option<Value>)
      ensures r
           == if kind.None? || (Primitive(kind.value) && Null in values) then None
              else Some(Array(kind.value, values))
    {
      if kind.None? {
        return None;
      }
      var items := [];
      for i := 0 to |values|
        invariant items == values[..i] && (Primitive(kind.value) ==> Null !in items)
      {
        if Primitive(kind.value) && values[i].Null? {
          return None;
        }
        items := items + [values[i]];
      }
      assert values[..|values|] == values;
      return Some(Array(kind.value, items));
    }

    method PropertyValue() returns (r: Option<Value>)
      ensures r == Collected(pf, Value())
    {
      if inArray {
        r := ValuesArray();
      } else if inList {
        r := Some(List(values));
      } else if inSet {
        r := Some(Set(Members(values)));
      } else if value.Some? {
        var x := if kind.None? then None else Parse(pf, kind.value, value.value);
        r := if x.Some? then Some(Single(x.value)) else None;
      } else {
        r := Some(Single(Text(buffer)));
      }
    }

    method EndProperty() returns (ok: bool)
      requires !inXml
      modifies this
      ensures ok == OnEnd(pf, old(Value()), "property").Some?
      ensures ok ==> Value() == OnEnd(pf, old(Value()), "property").value
    {
      var v := PropertyValue();
      if v.None? || name.None? {
        return false;
      }
      inProperty := false;
      props := props[name.value := v.value];
      inArray, inList, inSet, inXml := false, false, false, false;
      return true;
    }

    method EndValue() returns (ok: bool)
      requires !inXml
      modifies this
      ensures ok == OnEnd(pf, old(Value()), "value").Some?
      ensures ok ==> Value() == OnEnd(pf, old(Value()), "value").value
    {
      var x := if kind.None? then None else Parse(pf, kind.value, buffer);
      if x.None? {
        return false;
      }
      values := values + [x.value];
      inValue := false;
      return true;
    }

    /** Answers whether the call returned normally. */
    method EndElement(qName: string) returns (ok: bool)
      modifies this
      ensures ok == OnEnd(pf, old(Value()), qName).Some?
      ensures ok ==> Value() == OnEnd(pf, old(Value()), qName).value
    {
      if inXml {
        if qName != "xml" {
          buffer := buffer + "</" + qName + ">";
        } else {
          inXml := false;
        }
        return true;
      }
      if qName == "endpoint-description" {
        done, props := done + [props], map[];
        return true;
      }
      if qName == "property" {
        ok := EndProperty();
        return;
      }
      if qName == "value" {
        ok := EndValue();
        return;
      }
      return true;
    }

    method Characters(text: string)
      modifies this
      ensures Value() == OnChars(old(Value()), text)
    {
      if inValue || inXml {
        buffer := buffer + text;
      }
    }
  }

  /** Feeds the parser's events to a new handler. */
  method ParseDocument(pf: Platform, events: seq<Event>) returns (r: Option<seq<Props>>)
    ensures r == ParsedDocument(pf, events)
  {
    var handler := new ParserHandler(pf);
    for i := 0 to |events|
      invariant handler.pf == pf && Run(pf, FRESH, events) == Run(pf, handler.Value(), events[i..])
    {
      var e := events[i];
      assert events[i..][1..] == events[i + 1..];
      match e
      case Start(name, attributes) => handler.StartElement(name, attributes);
      case End(name) =>
        var ok := handler.EndElement(name);
        if !ok {
          return None;
        }
      case Chars(text) => handler.Characters(text);
      case Fatal => return None;
    }
    return Some(handler.done);
  }

  /** Writing a document and reading it back. */
  method WriteAndParse(pf: Platform, o: Orders, doc: seq<Props>) returns (r: Option<seq<Props>>)
    requires Sane(pf) && Fair(o)
    requires forall p <- doc :: AllPlain(pf, p) && AllTyped(pf, o, p)
    ensures r == Some(doc) <==> DocWritable(o, doc) && forall p <- doc :: AllFaithful(pf, o, p)
  {
    var events := WriteDocument(pf, o, doc);
    if events.None? {
      return None;
    }
    r := ParseDocument(pf, events.value);
    RoundTrip(pf, o, doc, events.value);
  }
}
