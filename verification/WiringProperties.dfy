/** The textual form of a wiring endpoint's properties: what the writer stores and the reader
    loads, one `key=value` per line. */
module WiringProperties {
  import opened Wrappers
  import opened Collections

  type Props = map<string, string>

  // ---- Writing ----------------------------------------------------------------------------------

  predicate Escaped(c: char) {
    c == '#' || c == '!' || c == '='
  }

  function EscapeOne(c: char): string {
    if Escaped(c) then ['\\', c] else [c]
  }

  function Escape(s: string): string {
    if s == [] then [] else EscapeOne(s[0]) + Escape(s[1..])
  }

  function Line(k: string, v: string): string {
    Escape(k) + ['='] + Escape(v)
  }

  /** The stored form, with the entries in the order the hash table yields. */
  function Text(m: Props, order: seq<string>): string
    requires forall k <- order :: k in m
  {
    if order == [] then []
    else Text(m, order[..|order| - 1]) + Line(order[|order| - 1], m[order[|order| - 1]]) + ['\n']
  }

  // ---- Reading one line -----------------------------------------------------------------------------

  datatype Where = Nowhere | InKey | InValue

  datatype Scan = Scan(where: Where, key: string, value: string, back: bool, comment: bool)

  const FRESH := Scan(Nowhere, "", "", false, false)

  predicate Blank(c: char) {
    c == ' ' || c == '\t'
  }

  function Emit(s: Scan, c: char): Scan {
    match s.where
    case Nowhere => s
    case InKey => s.(key := s.key + [c])
    case InValue => s.(value := s.value + [c])
  }

  function Output(s: Scan): string {
    if s.where.InValue? then s.value else s.key
  }

  /** One character; a blank inside an entry is put out twice, once as a blank and once as an
      ordinary character. */
  function Step(s: Scan, c: char): Scan {
    if s.comment then s
    else if Blank(c) then (if s.where.Nowhere? then s else Emit(Emit(s, c), c).(back := false))
    else
      var t := if s.where.Nowhere? then s.(where := InKey) else s;
      if Escaped(c) || c == ':' then
        if t.back then Emit(t, c).(back := false)
        else if c == '#' || c == '!' then (if Output(t) == [] then t.(comment := true) else Emit(t, c))
        else if t.where.InValue? then Emit(t, c)
        else t.(where := InValue)
      else if c == '\\' then (if t.back then Emit(t, c) else t).(back := true)
      else Emit(t, c).(back := false)
  }

  function ScanFrom(s: Scan, line: string): Scan {
    if line == [] then s else Step(ScanFrom(s, line[..|line| - 1]), line[|line| - 1])
  }

  predicate Space(c: char) {
    c == ' ' || ('\t' <= c <= '\r')
  }

  function Trim(s: string): string {
    if s == [] then []
    else if Space(s[0]) then Trim(s[1..])
    else if Space(s[|s| - 1]) then Trim(s[..|s| - 1])
    else s
  }

  function Parsed(line: string): Option<(string, string)> {
    var s := ScanFrom(FRESH, line);
    if s.comment then None else Some((Trim(s.key), Trim(s.value)))
  }

  // ---- Reading a text -------------------------------------------------------------------------------

  /** The first entry for a key wins. */
  function Entered(m: Props, line: string): Props {
    match Parsed(line)
    case None => m
    case Some((k, v)) => if k in m then m else m[k := v]
  }

  /** Reads the lines of a text; `pending` is the line being collected.  Empty lines do not count. */
  function Loaded(m: Props, pending: string, text: string): Props
    decreases |text|
  {
    if text == [] then (if pending == [] then m else Entered(m, pending))
    else if text[0] == '\n' then Loaded(if pending == [] then m else Entered(m, pending), "", text[1..])
    else Loaded(m, pending + [text[0]], text[1..])
  }

  // ---- Lines by hand -----------------------------------------------------------------------------------

  lemma {:induction false} ScanAppend(s: Scan, a: string, b: string)
    ensures ScanFrom(s, a + b) == ScanFrom(ScanFrom(s, a), b)
  {
    if b == [] {
      assert a + b == a;
    } else {
      ScanAppend(s, a, b[..|b| - 1]);
      assert (a + b)[..|a + b| - 1] == a + b[..|b| - 1];
      assert (a + b)[|a + b| - 1] == b[|b| - 1];
    }
  }

  lemma ScanOne(s: Scan, c: char)
    ensures ScanFrom(s, [c]) == Step(s, c)
  {
    assert [c][..0] == [];
  }

  lemma ScanTwo(s: Scan, c: char, d: char)
    ensures ScanFrom(s, [c, d]) == Step(Step(s, c), d)
  {
    assert [c, d] == [c] + [d];
    ScanAppend(s, [c], [d]);
    ScanOne(s, c);
    ScanOne(Step(s, c), d);
  }

  /** The writer escapes these three characters and no others. */
  lemma EscapedIs(c: char)
    ensures EscapeOne(c) == if c in "#!=" then "\\" + [c] else [c]
  {
  }

  /** The character means nothing to the scanner and is no white space. */
  predicate Plain(c: char) {
    c !in " \t\n\r#!=:\\" && c != '\U{B}' && c != '\U{C}'
  }

  predicate Ordinary(t: string) {
    forall c <- t :: Plain(c)
  }

  /** The scanner once it has put out an ordinary text. */
  function Past(s: Scan, t: string): Scan {
    if s.where.InValue? then s.(value := s.value + t, back := false)
    else s.(where := InKey, key := s.key + t, back := false)
  }

  lemma StepPlain(s: Scan, c: char)
    requires Plain(c) && !s.comment
    ensures Step(s, c) == Past(s, [c])
  {
  }

  lemma PastNext(s: Scan, t: string, c: char)
    ensures Past(Past(s, t), [c]) == Past(s, t + [c])
  {
    assert s.value + t + [c] == s.value + (t + [c]) && s.key + t + [c] == s.key + (t + [c]);
  }

  lemma {:induction false} ScanOrdinary(s: Scan, t: string)
    requires Ordinary(t) && t != [] && !s.comment
    ensures ScanFrom(s, t) == Past(s, t)
  {
    var before, c := t[..|t| - 1], t[|t| - 1];
    assert t == before + [c] && c in t;
    if before == [] {
      assert ScanFrom(s, before) == s;
      StepPlain(s, c);
    } else {
      ScanOrdinary(s, before);
      StepPlain(Past(s, before), c);
      PastNext(s, before, c);
    }
  }

  lemma {:induction false} TrimOrdinary(t: string)
    requires Ordinary(t)
    ensures Trim(t) == t
  {
    if t != [] {
      assert t[0] in t && t[|t| - 1] in t;
    }
  }

  predicate White(t: string) {
    forall c <- t :: c in " \t\n\r\U{B}\U{C}"
  }

  /** White space on either side of a key or a value goes. */
  lemma {:induction false} TrimAround(before: string, t: string, after: string)
    requires White(before) && Ordinary(t) && t != [] && White(after)
    ensures Trim(before + t + after) == t
  {
    var all := before + t + after;
    if before != [] {
      assert before[0] in before && all[0] == before[0];
      assert all[1..] == before[1..] + t + after;
      TrimAround(before[1..], t, after);
    } else if after != [] {
      var last := after[|after| - 1];
      assert last in after && t[0] in t && all[0] == t[0] && all[|all| - 1] == last;
      assert all[..|all| - 1] == before + t + after[..|after| - 1];
      TrimAround(before, t, after[..|after| - 1]);
    } else {
      assert all == t;
      TrimOrdinary(t);
    }
  }

  lemma ScanNext(s: Scan, line: string, c: char)
    ensures ScanFrom(s, line + [c]) == Step(ScanFrom(s, line), c)
  {
    assert (line + [c])[..|line|] == line;
  }

  /** A text is trimmed if its first and last characters are ordinary. */
  lemma TrimBetween(a: string, middle: string, b: string)
    requires a != [] && Ordinary(a) && b != [] && Ordinary(b)
    ensures Trim(a + middle + b) == a + middle + b
  {
    var t := a + middle + b;
    assert a[0] in a && b[|b| - 1] in b;
    assert t[0] == a[0] && t[|t| - 1] == b[|b| - 1];
  }

  lemma StepSeparator(k: string, separator: char)
    requires separator == '=' || separator == ':'
    ensures Step(Scan(InKey, k, "", false, false), separator) == Scan(InValue, k, "", false, false)
  {
  }

  lemma KeyRead(k: string, separator: char)
    requires k != [] && Ordinary(k) && (separator == '=' || separator == ':')
    ensures ScanFrom(FRESH, k + [separator]) == Scan(InValue, k, "", false, false)
  {
    ScanOrdinary(FRESH, k);
    assert [] + k == k && ScanFrom(FRESH, k) == Scan(InKey, k, "", false, false);
    ScanNext(FRESH, k, separator);
    StepSeparator(k, separator);
  }

  lemma ValueRead(line: string, k: string, had: string, v: string)
    requires ScanFrom(FRESH, line) == Scan(InValue, k, had, false, false) && v != [] && Ordinary(v)
    ensures ScanFrom(FRESH, line + v) == Scan(InValue, k, had + v, false, false)
  {
    ScanAppend(FRESH, line, v);
    ScanOrdinary(ScanFrom(FRESH, line), v);
  }

  /** Key and value may be separated by an equals sign or a colon. */
  lemma SeparatedLine(k: string, separator: char, v: string)
    requires k != [] && Ordinary(k) && v != [] && Ordinary(v)
    requires separator == '=' || separator == ':'
    ensures Parsed(k + [separator] + v) == Some((k, v)) && Parsed(k + [separator]) == Some((k, ""))
  {
    KeyRead(k, separator);
    ValueRead(k + [separator], k, "", v);
    assert "" + v == v;
    TrimOrdinary(k);
    TrimOrdinary(v);
  }

  /** A later one belongs to the value, as the other signs do there. */
  lemma SignInValue(k: string, v: string, sign: char, w: string)
    requires k != [] && Ordinary(k) && v != [] && Ordinary(v) && w != [] && Ordinary(w) && sign in "=:#!"
    ensures Parsed(k + "=" + v + [sign] + w) == Some((k, v + [sign] + w))
  {
    KeyRead(k, '=');
    ValueRead(k + "=", k, "", v);
    assert "" + v == v;
    ScanNext(FRESH, k + "=" + v, sign);
    ValueRead(k + "=" + v + [sign], k, v + [sign], w);
    TrimOrdinary(k);
    TrimBetween(v, [sign], w);
  }

  lemma StepSign(k: string, sign: char)
    requires k != [] && (sign == '#' || sign == '!')
    ensures Step(Scan(InKey, k, "", false, false), sign) == Scan(InKey, k + [sign], "", false, false)
  {
  }

  lemma SignedKeyRead(k: string, sign: char, l: string)
    requires k != [] && Ordinary(k) && (sign == '#' || sign == '!') && l != [] && Ordinary(l)
    ensures ScanFrom(FRESH, k + [sign] + l + "=") == Scan(InValue, k + [sign] + l, "", false, false)
  {
    ScanOrdinary(FRESH, k);
    assert [] + k == k && ScanFrom(FRESH, k) == Scan(InKey, k, "", false, false);
    ScanNext(FRESH, k, sign);
    StepSign(k, sign);
    ScanAppend(FRESH, k + [sign], l);
    ScanOrdinary(Scan(InKey, k + [sign], "", false, false), l);
    ScanNext(FRESH, k + [sign] + l, '=');
    StepSeparator(k + [sign] + l, '=');
  }

  /** The two signs of a comment mean nothing behind the first character of a key. */
  lemma SignInKey(k: string, sign: char, l: string, v: string)
    requires k != [] && Ordinary(k) && l != [] && Ordinary(l) && v != [] && Ordinary(v)
    requires sign == '#' || sign == '!'
    ensures Parsed(k + [sign] + l + "=" + v) == Some((k + [sign] + l, v))
  {
    SignedKeyRead(k, sign, l);
    ValueRead(k + [sign] + l + "=", k + [sign] + l, "", v);
    assert "" + v == v;
    TrimBetween(k, [sign], l);
    TrimOrdinary(v);
  }

  lemma {:induction false} SkipBlanks(blanks: string)
    requires forall c <- blanks :: c in " \t"
    ensures ScanFrom(FRESH, blanks) == FRESH
  {
    if blanks != [] {
      var before, c := blanks[..|blanks| - 1], blanks[|blanks| - 1];
      assert c in blanks;
      SkipBlanks(before);
    }
  }

  lemma {:induction false} Ignored(line: string, rest: string)
    requires ScanFrom(FRESH, line).comment
    ensures Parsed(line + rest).None?
  {
    if rest == [] {
      assert line + rest == line;
    } else {
      var before := rest[..|rest| - 1];
      Ignored(line, before);
      assert line + rest == line + before + [rest[|rest| - 1]];
      ScanNext(FRESH, line + before, rest[|rest| - 1]);
    }
  }

  /** A line that begins with one of two signs, perhaps behind blanks, is a comment. */
  lemma CommentLine(blanks: string, sign: char, rest: string)
    requires (forall c <- blanks :: c in " \t") && sign in "#!"
    ensures Parsed(blanks + [sign] + rest).None?
  {
    SkipBlanks(blanks);
    ScanNext(FRESH, blanks, sign);
    Ignored(blanks + [sign], rest);
  }

  /** So is one whose value begins so. */
  lemma CommentValue(k: string, sign: char, rest: string)
    requires k != [] && Ordinary(k) && sign in "#!"
    ensures Parsed(k + "=" + [sign] + rest).None?
  {
    KeyRead(k, '=');
    ScanNext(FRESH, k + "=", sign);
    Ignored(k + "=" + [sign], rest);
  }

  lemma StepBlank(k: string, a: string, blank: char)
    requires blank == ' ' || blank == '\t'
    ensures Step(Scan(InValue, k, a, false, false), blank) == Scan(InValue, k, a + [blank, blank], false, false)
  {
    assert a + [blank] + [blank] == a + [blank, blank];
  }

  /** A blank within a value comes out twice. */
  lemma BlankLine(k: string, a: string, blank: char, b: string)
    requires k != [] && Ordinary(k) && a != [] && Ordinary(a) && b != [] && Ordinary(b)
    requires blank == ' ' || blank == '\t'
    ensures Parsed(k + "=" + a + [blank] + b) == Some((k, a + [blank, blank] + b))
  {
    KeyRead(k, '=');
    ValueRead(k + "=", k, "", a);
    assert "" + a == a;
    ScanNext(FRESH, k + "=" + a, blank);
    StepBlank(k, a, blank);
    ValueRead(k + "=" + a + [blank], k, a + [blank, blank], b);
    TrimOrdinary(k);
    TrimBetween(a, [blank, blank], b);
  }

  // ---- What the scanner makes of an escaped string ------------------------------------------------------

  /** The scanner over the escaped form, one original character at a time. */
  function Piece(s: Scan, c: char): Scan {
    if Escaped(c) then Step(Step(s, '\\'), c) else Step(s, c)
  }

  lemma ScanEscape(s: Scan, t: string)
    requires t != []
    ensures ScanFrom(s, Escape(t)) == ScanFrom(Piece(s, t[0]), Escape(t[1..]))
  {
    var c := t[0];
    if Escaped(c) {
      ScanAppend(s, ['\\', c], Escape(t[1..]));
      ScanTwo(s, '\\', c);
    } else {
      ScanAppend(s, [c], Escape(t[1..]));
      ScanOne(s, c);
    }
  }

  /** What is put out for one character, `back` telling whether a backslash came just before. */
  function Sound(c: char, back: bool): string {
    if Blank(c) then [c, c]
    else if c == '\\' then (if back then ['\\'] else [])
    else if Escaped(c) && back then ['\\', c]
    else [c]
  }

  function Heard(t: string, back: bool): string {
    if t == [] then [] else Sound(t[0], back) + Heard(t[1..], t[0] == '\\')
  }

  lemma HeardStep(before: string, t: string, back: bool)
    requires t != []
    ensures before + Sound(t[0], back) + Heard(t[1..], t[0] == '\\') == before + Heard(t, back)
  {
  }

  lemma PieceValue(s: Scan, c: char)
    requires s.where.InValue? && !s.comment
    ensures Piece(s, c) == s.(value := s.value + Sound(c, s.back), back := c == '\\')
  {
  }

  lemma PieceKey(s: Scan, c: char)
    requires s.where.InKey? && !s.comment && (c == ':' ==> s.back)
    ensures Piece(s, c) == s.(key := s.key + Sound(c, s.back), back := c == '\\')
  {
  }

  function EndBack(t: string, back: bool): bool {
    if t == [] then back else t[|t| - 1] == '\\'
  }

  lemma EndBackStep(t: string, back: bool)
    requires t != []
    ensures EndBack(t, back) == EndBack(t[1..], t[0] == '\\')
  {
  }

  lemma {:induction false} ScanValue(s: Scan, t: string)
    requires s.where.InValue? && !s.comment
    ensures ScanFrom(s, Escape(t)) == s.(value := s.value + Heard(t, s.back), back := EndBack(t, s.back))
    decreases |t|
  {
    if t != [] {
      ScanEscape(s, t);
      EndBackStep(t, s.back);
      PieceValue(s, t[0]);
      ScanValue(Piece(s, t[0]), t[1..]);
      HeardStep(s.value, t, s.back);
    }
  }

  /** The key ends inside the string, at a colon. */
  predicate Cut(t: string, back: bool) {
    t != [] && ((t[0] == ':' && !back) || Cut(t[1..], t[0] == '\\'))
  }

  lemma {:induction false} ScanKey(s: Scan, t: string)
    requires s.where.InKey? && !s.comment && !Cut(t, s.back)
    ensures ScanFrom(s, Escape(t)) == s.(key := s.key + Heard(t, s.back), back := EndBack(t, s.back))
    decreases |t|
  {
    if t != [] {
      ScanEscape(s, t);
      EndBackStep(t, s.back);
      PieceKey(s, t[0]);
      ScanKey(Piece(s, t[0]), t[1..]);
      HeardStep(s.key, t, s.back);
    }
  }

  /** At the start of a line only blanks make a difference. */
  lemma {:induction false} ScanStart(line: string)
    requires line != [] && !Blank(line[0])
    ensures ScanFrom(FRESH, line) == ScanFrom(FRESH.(where := InKey), line)
  {
    if |line| == 1 {
      assert line == [line[0]];
      ScanOne(FRESH, line[0]);
      ScanOne(FRESH.(where := InKey), line[0]);
    } else {
      ScanStart(line[..|line| - 1]);
    }
  }

  // ---- Which strings survive ----------------------------------------------------------------------------

  /** Every run of backslashes ends before a character that the writer escapes. */
  predicate Kept(t: string, back: bool) {
    if t == [] then !back
    else (back ==> t[0] == '\\' || Escaped(t[0])) && Kept(t[1..], t[0] == '\\')
  }

  predicate Trimmed(t: string) {
    t == [] || (!Space(t[0]) && !Space(t[|t| - 1]))
  }

  predicate NoBlank(t: string) {
    forall c <- t :: !Blank(c)
  }

  /** The strings that come back unchanged within a line. */
  predicate Survives(t: string) {
    Kept(t, false) && NoBlank(t) && Trimmed(t)
  }

  /** With the blanks doubled. */
  function Doubled(t: string): string {
    if t == [] then [] else Twice(t[0]) + Doubled(t[1..])
  }

  function Twice(c: char): string {
    if Blank(c) then [c, c] else [c]
  }

  /** The backslash owed before and after one character. */
  function Owed(back: bool): string {
    if back then ['\\'] else []
  }

  lemma SoundKept(c: char, back: bool, rest: string)
    requires back ==> c == '\\' || Escaped(c)
    ensures Sound(c, back) + (Owed(c == '\\') + rest) == Owed(back) + (Twice(c) + rest)
  {
    assert Sound(c, back) + Owed(c == '\\') == Owed(back) + Twice(c);
    assert Sound(c, back) + (Owed(c == '\\') + rest) == Sound(c, back) + Owed(c == '\\') + rest;
    assert Owed(back) + (Twice(c) + rest) == Owed(back) + Twice(c) + rest;
  }

  lemma {:induction false} HeardKept(t: string, back: bool)
    requires Kept(t, back)
    ensures Heard(t, back) == Owed(back) + Doubled(t)
    ensures !EndBack(t, back)
  {
    if t != [] {
      HeardKept(t[1..], t[0] == '\\');
      EndBackStep(t, back);
      SoundKept(t[0], back, Doubled(t[1..]));
    }
  }

  function Count(x: char, t: string): nat {
    if t == [] then 0 else (if t[0] == x then 1 else 0) + Count(x, t[1..])
  }

  lemma {:induction false} CountAppend(x: char, a: string, b: string)
    ensures Count(x, a + b) == Count(x, a) + Count(x, b)
  {
    if a == [] {
      assert a + b == b;
    } else {
      CountAppend(x, a[1..], b);
      assert (a + b)[1..] == a[1..] + b;
    }
  }

  lemma CountSmall(x: char, t: string)
    ensures |t| == 0 ==> Count(x, t) == 0
    ensures |t| == 1 ==> Count(x, t) == if t[0] == x then 1 else 0
    ensures |t| == 2 ==> Count(x, t) == (if t[0] == x then 1 else 0) + (if t[1] == x then 1 else 0)
  {
    if |t| == 2 {
      assert Count(x, t[1..]) == (if t[1] == x then 1 else 0) + Count(x, t[1..][1..]);
    }
  }

  lemma {:induction false} CountTrim(x: char, t: string)
    requires !Space(x)
    ensures Count(x, Trim(t)) == Count(x, t)
  {
    if t == [] {
    } else if Space(t[0]) {
      CountTrim(x, t[1..]);
    } else if Space(t[|t| - 1]) {
      CountTrim(x, t[..|t| - 1]);
      assert t == t[..|t| - 1] + [t[|t| - 1]];
      CountAppend(x, t[..|t| - 1], [t[|t| - 1]]);
      assert [t[|t| - 1]][1..] == [];
    }
  }

  /** Backslashes only get fewer, and stay as many only if every run is kept. */
  lemma {:induction false} HeardBackslashes(t: string, back: bool)
    ensures Count('\\', Heard(t, back)) <= Count('\\', t) + (if back then 1 else 0)
    ensures Count('\\', Heard(t, back)) == Count('\\', t) + (if back then 1 else 0) ==> Kept(t, back)
  {
    if t != [] {
      var front, rest := Sound(t[0], back), Heard(t[1..], t[0] == '\\');
      HeardBackslashes(t[1..], t[0] == '\\');
      CountAppend('\\', front, rest);
      CountSmall('\\', front);
    }
  }

  lemma {:induction false} TrimTrimmed(t: string)
    ensures Trimmed(Trim(t)) && (Trimmed(t) ==> Trim(t) == t)
  {
    if t == [] {
    } else if Space(t[0]) {
      TrimTrimmed(t[1..]);
    } else if Space(t[|t| - 1]) {
      TrimTrimmed(t[..|t| - 1]);
    }
  }

  lemma {:induction false} DoubledEnds(t: string)
    requires t != []
    ensures |Doubled(t)| >= |t| && Doubled(t)[0] == t[0]
    ensures Doubled(t)[|Doubled(t)| - 1] == t[|t| - 1]
    ensures |Doubled(t)| == |t| ==> NoBlank(t)
    ensures NoBlank(t) ==> Doubled(t) == t
  {
    assert t == [t[0]] + t[1..];
    if |t| > 1 {
      DoubledEnds(t[1..]);
    } else {
      assert Doubled(t[1..]) == [];
    }
  }

  lemma SurvivesForward(t: string)
    requires Survives(t)
    ensures !EndBack(t, false) && Heard(t, false) == t && Trim(t) == t
  {
    HeardKept(t, false);
    TrimTrimmed(t);
    if t != [] {
      DoubledEnds(t);
    }
  }

  lemma SurvivesBackward(t: string)
    requires Trim(Heard(t, false)) == t
    ensures Survives(t)
  {
    CountTrim('\\', Heard(t, false));
    HeardBackslashes(t, false);
    HeardKept(t, false);
    TrimTrimmed(Heard(t, false));
    assert Heard(t, false) == Doubled(t);
    if t != [] {
      DoubledEnds(t);
      TrimTrimmed(Doubled(t));
    }
  }

  /** What is put out for a string is, once trimmed, that string if and only if it survives. */
  lemma SurvivesExactly(t: string)
    ensures Trim(Heard(t, false)) == t <==> Survives(t)
    ensures Survives(t) ==> !EndBack(t, false) && Heard(t, false) == t
  {
    if Trim(Heard(t, false)) == t {
      SurvivesBackward(t);
    }
    if Survives(t) {
      SurvivesForward(t);
    }
  }

  // ---- One line ---------------------------------------------------------------------------------------

  predicate KeySurvives(k: string) {
    Survives(k) && ':' !in k
  }

  lemma {:induction false} CutAtColon(t: string, back: bool)
    requires Kept(t, back)
    ensures Cut(t, back) <==> ':' in t
  {
    if t != [] {
      CutAtColon(t[1..], t[0] == '\\');
      assert t == [t[0]] + t[1..];
    }
  }

  /** Once in the value, the key is final. */
  lemma {:induction false} KeyFinal(s: Scan, line: string)
    requires s.where.InValue?
    ensures ScanFrom(s, line).where.InValue? && ScanFrom(s, line).key == s.key
  {
    if line != [] {
      KeyFinal(s, line[..|line| - 1]);
    }
  }

  /** A key that is cut comes out with a colon missing. */
  lemma {:induction false} CutLoses(s: Scan, t: string)
    requires s.where.InKey? && !s.comment && Cut(t, s.back)
    ensures var r := ScanFrom(s, Escape(t));
            r.where.InValue? && Count(':', r.key) < Count(':', s.key) + Count(':', t)
    decreases |t|
  {
    ScanEscape(s, t);
    var p := Piece(s, t[0]);
    if t[0] == ':' && !s.back {
      KeyFinal(p, Escape(t[1..]));
    } else {
      PieceKey(s, t[0]);
      CountAppend(':', s.key, Sound(t[0], s.back));
      ColonSound(t[0], s.back);
      CutLoses(p, t[1..]);
    }
  }

  lemma ColonSound(c: char, back: bool)
    ensures Count(':', Sound(c, back)) == if c == ':' then 1 else 0
  {
    CountSmall(':', Sound(c, back));
  }

  lemma {:induction false} KeyGrows(s: Scan, line: string, x: char)
    ensures Count(x, ScanFrom(s, line).key) >= Count(x, s.key)
  {
    if line != [] {
      var r, c := ScanFrom(s, line[..|line| - 1]), line[|line| - 1];
      KeyGrows(s, line[..|line| - 1], x);
      CountAppend(x, r.key, [c]);
      CountAppend(x, r.key + [c], [c]);
    }
  }

  const KEY_START := Scan(InKey, "", "", false, false)

  lemma {:induction false} EqualsHeard(t: string, back: bool)
    ensures Count('=', Heard(t, back)) == Count('=', t)
  {
    if t != [] {
      EqualsHeard(t[1..], t[0] == '\\');
      var o := Sound(t[0], back);
      CountAppend('=', o, Heard(t[1..], t[0] == '\\'));
      CountSmall('=', o);
    }
  }

  lemma ScanToSeparator(k: string, v: string)
    requires !Cut(k, false)
    ensures ScanFrom(KEY_START, Line(k, v))
         == ScanFrom(Step(KEY_START.(key := Heard(k, false), back := EndBack(k, false)), '='), Escape(v))
  {
    ScanKey(KEY_START, k);
    var r := ScanFrom(KEY_START, Escape(k));
    assert "" + Heard(k, false) == Heard(k, false);
    ScanAppend(KEY_START, Escape(k), ['=']);
    ScanOne(r, '=');
    ScanAppend(KEY_START, Escape(k) + ['='], Escape(v));
  }

  /** A key that is not cut and does not end in a backslash ends at the separator. */
  lemma LineSplits(k: string, v: string)
    requires !Cut(k, false) && !EndBack(k, false)
    ensures ScanFrom(KEY_START, Line(k, v))
         == Scan(InValue, Heard(k, false), Heard(v, false), EndBack(v, false), false)
  {
    ScanToSeparator(k, v);
    assert "" + Heard(k, false) == Heard(k, false);
    ScanValue(Step(KEY_START.(key := Heard(k, false)), '='), v);
    assert "" + Heard(v, false) == Heard(v, false);
  }

  /** A key that ends in a backslash swallows the separator. */
  lemma SeparatorSwallowed(k: string, v: string)
    requires !Cut(k, false) && EndBack(k, false)
    ensures Count('=', ScanFrom(KEY_START, Line(k, v)).key) > Count('=', k)
  {
    ScanToSeparator(k, v);
    KeyGrows(Step(KEY_START.(key := Heard(k, false), back := true), '='), Escape(v), '=');
    CountAppend('=', Heard(k, false), ['=']);
    EqualsHeard(k, false);
    assert "" + Heard(k, false) == Heard(k, false);
  }

  lemma LineStart(k: string, v: string)
    requires Trimmed(k)
    ensures ScanFrom(FRESH, Line(k, v)) == ScanFrom(KEY_START, Line(k, v))
  {
    ScanStart(Line(k, v));
  }

  lemma ForwardLine(k: string, v: string)
    requires KeySurvives(k) && Survives(v)
    ensures Parsed(Line(k, v)) == Some((k, v))
  {
    LineStart(k, v);
    CutAtColon(k, false);
    SurvivesExactly(k);
    SurvivesExactly(v);
    LineSplits(k, v);
  }

  /** A cut key stays short of a colon. */
  lemma CutCounts(k: string, v: string)
    requires Cut(k, false)
    ensures Count(':', Trim(ScanFrom(KEY_START, Line(k, v)).key)) < Count(':', k)
  {
    CutLoses(KEY_START, k);
    assert Line(k, v) == Escape(k) + (['='] + Escape(v));
    ScanAppend(KEY_START, Escape(k), ['='] + Escape(v));
    KeyFinal(ScanFrom(KEY_START, Escape(k)), ['='] + Escape(v));
    CountTrim(':', ScanFrom(KEY_START, Line(k, v)).key);
  }

  lemma CutShows(k: string, v: string)
    requires Cut(k, false)
    ensures Trim(ScanFrom(KEY_START, Line(k, v)).key) != k
  {
    CutCounts(k, v);
  }

  lemma SwallowShows(k: string, v: string)
    requires !Cut(k, false) && EndBack(k, false)
    ensures Trim(ScanFrom(KEY_START, Line(k, v)).key) != k
  {
    SeparatorSwallowed(k, v);
    CountTrim('=', ScanFrom(KEY_START, Line(k, v)).key);
  }

  lemma SplitsBackward(k: string, v: string)
    requires var r := ScanFrom(KEY_START, Line(k, v)); Trim(r.key) == k && Trim(r.value) == v
    ensures !Cut(k, false) && Trim(Heard(k, false)) == k && Trim(Heard(v, false)) == v
  {
    if Cut(k, false) {
      CutShows(k, v);
    } else if EndBack(k, false) {
      SwallowShows(k, v);
    } else {
      LineSplits(k, v);
    }
  }

  lemma BackwardLine(k: string, v: string)
    requires Parsed(Line(k, v)) == Some((k, v))
    ensures KeySurvives(k) && Survives(v)
  {
    TrimTrimmed(ScanFrom(FRESH, Line(k, v)).key);
    LineStart(k, v);
    SplitsBackward(k, v);
    SurvivesExactly(k);
    SurvivesExactly(v);
    CutAtColon(k, false);
  }

  /** A written line is read back as written if and only if, in key and value, nothing is blank
      or to be trimmed, every run of backslashes is followed by '#', '!' or '=', and the key has
      no colon. */
  lemma LineExactly(k: string, v: string)
    ensures Parsed(Line(k, v)) == Some((k, v)) <==> KeySurvives(k) && Survives(v)
  {
    if KeySurvives(k) && Survives(v) {
      ForwardLine(k, v);
    }
    if Parsed(Line(k, v)) == Some((k, v)) {
      BackwardLine(k, v);
    }
  }

  // ---- A whole text -------------------------------------------------------------------------------------

  predicate OneLine(t: string) {
    '\n' !in t
  }

  lemma {:induction false} EscapeOneLine(t: string)
    ensures OneLine(Escape(t)) <==> OneLine(t)
  {
    if t != [] {
      EscapeOneLine(t[1..]);
      assert t == [t[0]] + t[1..];
    }
  }

  lemma {:induction false} LoadedLine(m: Props, pending: string, line: string, rest: string)
    requires OneLine(line)
    ensures Loaded(m, pending, line + rest) == Loaded(m, pending + line, rest)
    decreases |line|
  {
    if line == [] {
      assert line + rest == rest && pending + line == pending;
    } else {
      LoadedLine(m, pending + [line[0]], line[1..], rest);
      assert (line + rest)[1..] == line[1..] + rest;
      assert pending + [line[0]] + line[1..] == pending + line;
    }
  }

  lemma LoadedEntry(m: Props, k: string, v: string, rest: string)
    requires OneLine(k) && OneLine(v)
    ensures Loaded(m, "", Line(k, v) + ['\n'] + rest) == Loaded(Entered(m, Line(k, v)), "", rest)
  {
    EscapeOneLine(k);
    EscapeOneLine(v);
    var line := Line(k, v);
    assert line + ['\n'] + rest == line + (['\n'] + rest);
    LoadedLine(m, "", line, ['\n'] + rest);
    assert "" + line == line;
    assert (['\n'] + rest)[1..] == rest;
  }

  /** The first entry for a key wins, and an entry of the map loaded into wins over the text. */
  lemma FirstWins(m: Props, k: string, v: string, w: string)
    requires k != [] && Ordinary(k) && v != [] && Ordinary(v) && w != [] && Ordinary(w)
    ensures Loaded(m, "", k + "=" + v + "\n" + (k + "=" + w + "\n")) == if k in m then m else m[k := v]
  {
    var first, second := k + "=" + v, k + "=" + w;
    assert OneLine(first) && OneLine(second);
    SeparatedLine(k, '=', v);
    SeparatedLine(k, '=', w);
    LoadedLine(m, "", first, "\n" + (second + "\n"));
    assert first + "\n" + (second + "\n") == first + ("\n" + (second + "\n"));
    assert "" + first == first && "" + second == second;
    assert ("\n" + (second + "\n"))[1..] == second + "\n";
    var entered := Entered(m, first);
    LoadedLine(entered, "", second, "\n");
    assert "\n"[1..] == "";
  }

  predicate Portable(k: string, v: string) {
    OneLine(k) && OneLine(v) && KeySurvives(k) && Survives(v)
  }

  // ---- One property, exactly ------------------------------------------------------------------------------

  lemma {:induction false} ScanOneLine(s: Scan, line: string)
    requires OneLine(line) && OneLine(s.key) && OneLine(s.value)
    ensures OneLine(ScanFrom(s, line).key) && OneLine(ScanFrom(s, line).value)
  {
    if line != [] {
      ScanOneLine(s, line[..|line| - 1]);
    }
  }

  lemma {:induction false} TrimOneLine(t: string)
    requires OneLine(t)
    ensures OneLine(Trim(t))
  {
    if t == [] {
    } else if Space(t[0]) {
      TrimOneLine(t[1..]);
    } else if Space(t[|t| - 1]) {
      TrimOneLine(t[..|t| - 1]);
    }
  }

  predicate Flat(m: Props) {
    forall k | k in m :: OneLine(k) && OneLine(m[k])
  }

  lemma EnteredFlat(m: Props, line: string)
    requires Flat(m) && OneLine(line)
    ensures Flat(Entered(m, line))
  {
    var s := ScanFrom(FRESH, line);
    ScanOneLine(FRESH, line);
    TrimOneLine(s.key);
    TrimOneLine(s.value);
  }

  /** Nothing that is loaded holds a newline. */
  lemma {:induction false} LoadedFlat(m: Props, pending: string, text: string)
    requires Flat(m) && OneLine(pending)
    ensures Flat(Loaded(m, pending, text))
    decreases |text|
  {
    var entered := if pending == [] then m else Entered(m, pending);
    EnteredFlat(m, pending);
    if text != [] {
      if text[0] == '\n' {
        LoadedFlat(entered, "", text[1..]);
      } else {
        LoadedFlat(m, pending + [text[0]], text[1..]);
      }
    }
  }

  /** A single property survives storing and loading if and only if it is portable. */
  lemma SingleExactly(k: string, v: string)
    ensures Loaded(map[], "", Line(k, v) + ['\n']) == map[k := v] <==> Portable(k, v)
  {
    var text := Line(k, v) + ['\n'];
    LoadedFlat(map[], "", text);
    if OneLine(k) && OneLine(v) {
      LoadedEntry(map[], k, v, "");
      assert text + "" == text;
      LineExactly(k, v);
      assert Loaded(map[], "", text) == Entered(map[], Line(k, v));
      match Parsed(Line(k, v))
      case None => assert k in map[k := v];
      case Some((k', v')) =>
        assert map[k' := v'] == map[k := v] ==> k in map[k' := v'] && map[k' := v'][k] == v;
    } else {
      assert !Flat(map[k := v]) by {
        assert k in map[k := v];
      }
    }
  }

  // ---- A whole map, exactly --------------------------------------------------------------------------------

  /** What is loaded from the lines of the entries, one after the other. */
  function Collected(m: Props, order: seq<string>): Props
    requires forall k <- order :: k in m
  {
    if order == [] then map[]
    else
      var k := order[|order| - 1];
      Entered(Collected(m, order[..|order| - 1]), Line(k, m[k]))
  }

  lemma {:induction false} LoadedCollected(m: Props, order: seq<string>, rest: string)
    requires (forall k <- order :: k in m) && Flat(m)
    ensures Loaded(map[], "", Text(m, order) + rest) == Loaded(Collected(m, order), "", rest)
  {
    if order == [] {
      assert Text(m, order) + rest == rest;
    } else {
      var before, k := order[..|order| - 1], order[|order| - 1];
      var line := Line(k, m[k]);
      Regroup(Text(m, before) + line, ['\n'], rest);
      Regroup(Text(m, before), line, ['\n'] + rest);
      Regroup(line, ['\n'], rest);
      LoadedCollected(m, before, line + ['\n'] + rest);
      LoadedEntry(Collected(m, before), k, m[k], rest);
    }
  }

  lemma {:induction false} CollectedPortable(m: Props, order: seq<string>)
    requires (forall k <- order :: k in m) && forall k | k in m :: Portable(k, m[k])
    ensures Collected(m, order) == Restricted(m, order)
  {
    if order == [] {
      assert Restricted(m, order) == map[];
    } else {
      var before, k := order[..|order| - 1], order[|order| - 1];
      assert order == before + [k];
      CollectedPortable(m, before);
      ForwardLine(k, m[k]);
      RestrictedNext(m, before, k);
      assert k in before ==> Restricted(m, before)[k := m[k]] == Restricted(m, before);
    }
  }

  /** Loading what was stored gives the same map, whatever order the entries were written in. */
  lemma RoundTrip(m: Props, order: seq<string>)
    requires (forall k :: k in order <==> k in m) && forall k | k in m :: Portable(k, m[k])
    ensures Loaded(map[], "", Text(m, order)) == m
  {
    LoadedCollected(m, order, "");
    CollectedPortable(m, order);
    assert Text(m, order) + "" == Text(m, order);
    assert Restricted(m, order) == m;
  }

  /** A sum over the entries of a map. */
  ghost function Weight(f: (string, string) -> int, m: Props): int
    decreases |m|
  {
    if m == map[] then 0
    else
      var k :| k in m;
      f(k, m[k]) + Weight(f, m - {k})
  }

  lemma WeightRemove(f: (string, string) -> int, m: Props, k: string)
    requires k in m
    ensures Weight(f, m) == f(k, m[k]) + Weight(f, m - {k})
    decreases |m|
  {
    var x :| x in m && Weight(f, m) == f(x, m[x]) + Weight(f, m - {x});
    if x != k {
      WeightRemove(f, m - {x}, k);
      WeightRemove(f, m - {k}, x);
      assert m - {x} - {k} == m - {k} - {x};
    }
  }

  lemma WeightInsert(f: (string, string) -> int, m: Props, k: string, v: string)
    requires k !in m
    ensures Weight(f, m[k := v]) == Weight(f, m) + f(k, v)
  {
    WeightRemove(f, m[k := v], k);
    assert m[k := v] - {k} == m;
  }

  lemma RestrictedGrows(m: Props, order: seq<string>)
    requires order != [] && Distinct(order) && order[|order| - 1] in m
    ensures var k := order[|order| - 1];
            && k !in Restricted(m, order[..|order| - 1])
            && Restricted(m, order) == Restricted(m, order[..|order| - 1])[k := m[k]]
  {
    assert order == order[..|order| - 1] + [order[|order| - 1]];
  }

  lemma {:induction false} Sizes(m: Props, order: seq<string>)
    requires (forall k <- order :: k in m) && Distinct(order)
    ensures |Restricted(m, order)| == |order| && |Collected(m, order)| <= |order|
  {
    if order == [] {
      assert Restricted(m, order) == map[];
    } else {
      Sizes(m, order[..|order| - 1]);
      RestrictedGrows(m, order);
    }
  }

  /** The entry a line is read as. */
  function Read(k: string, v: string): (string, string) {
    match Parsed(Line(k, v)) case Some(e) => e case None => (k, v)
  }

  /** If as many entries are loaded as were written, every line has added a new one. */
  lemma CollectedNext(m: Props, order: seq<string>)
    requires (forall k <- order :: k in m) && Distinct(order) && order != [] && |Collected(m, order)| == |order|
    ensures var before, k := order[..|order| - 1], order[|order| - 1];
            var (k', v') := Read(k, m[k]);
            && |Collected(m, before)| == |before| && Parsed(Line(k, m[k])) == Some((k', v'))
            && k' !in Collected(m, before) && Collected(m, order) == Collected(m, before)[k' := v']
  {
    Sizes(m, order[..|order| - 1]);
  }

  /** If no line gains weight and the whole does not lose any, every line keeps its weight. */
  lemma {:induction false} Balanced(f: (string, string) -> int, m: Props, order: seq<string>)
    requires (forall k <- order :: k in m) && Distinct(order) && |Collected(m, order)| == |order|
    requires forall k <- order :: f(Read(k, m[k]).0, Read(k, m[k]).1) <= f(k, m[k])
    ensures Weight(f, Collected(m, order)) <= Weight(f, Restricted(m, order))
    ensures Weight(f, Collected(m, order)) == Weight(f, Restricted(m, order)) ==>
              forall k <- order :: f(Read(k, m[k]).0, Read(k, m[k]).1) == f(k, m[k])
  {
    if order == [] {
      assert Restricted(m, order) == map[];
    } else {
      var before, k := order[..|order| - 1], order[|order| - 1];
      assert order == before + [k];
      CollectedNext(m, order);
      RestrictedGrows(m, order);
      WeightInsert(f, Collected(m, before), Read(k, m[k]).0, Read(k, m[k]).1);
      WeightInsert(f, Restricted(m, before), k, m[k]);
      Balanced(f, m, before);
    }
  }

  // ---- What a line can lose ----------------------------------------------------------------------------------

  function Backslashes(k: string, v: string): int {
    Count('\\', k) + Count('\\', v)
  }

  lemma PieceBackslashes(s: Scan, c: char)
    requires !s.where.Nowhere? && !s.comment
    ensures var p := Piece(s, c);
            && !p.where.Nowhere? && !p.comment && p.back == (c == '\\')
            && Backslashes(p.key, p.value) == Backslashes(s.key, s.value) + Count('\\', Sound(c, s.back))
  {
    if s.where.InValue? {
      PieceValue(s, c);
      CountAppend('\\', s.value, Sound(c, s.back));
    } else if c == ':' ==> s.back {
      PieceKey(s, c);
      CountAppend('\\', s.key, Sound(c, s.back));
    } else {
      CountSmall('\\', Sound(c, s.back));
    }
  }

  lemma {:induction false} ScanBackslashes(s: Scan, t: string)
    requires !s.where.Nowhere? && !s.comment
    ensures var r := ScanFrom(s, Escape(t));
            && !r.where.Nowhere? && !r.comment && r.back == EndBack(t, s.back)
            && Backslashes(r.key, r.value) == Backslashes(s.key, s.value) + Count('\\', Heard(t, s.back))
    decreases |t|
  {
    if t != [] {
      ScanEscape(s, t);
      EndBackStep(t, s.back);
      PieceBackslashes(s, t[0]);
      ScanBackslashes(Piece(s, t[0]), t[1..]);
      CountAppend('\\', Sound(t[0], s.back), Heard(t[1..], t[0] == '\\'));
    }
  }

  lemma SeparatorBackslashes(s: Scan)
    requires !s.where.Nowhere? && !s.comment
    ensures var p := Step(s, '=');
            !p.where.Nowhere? && !p.comment && !p.back && Backslashes(p.key, p.value) == Backslashes(s.key, s.value)
  {
    CountAppend('\\', s.key, ['=']);
    CountAppend('\\', s.value, ['=']);
    CountSmall('\\', ['=']);
  }

  /** A line loses backslashes unless key and value keep every run of them. */
  lemma LineBackslashes(k: string, v: string)
    requires Trimmed(k)
    ensures var (k', v') := Read(k, v);
            && Parsed(Line(k, v)).Some? && Backslashes(k', v') <= Backslashes(k, v)
            && (Backslashes(k', v') == Backslashes(k, v) ==> Kept(k, false) && Kept(v, false))
  {
    LineStart(k, v);
    var a := ScanFrom(KEY_START, Escape(k));
    var b := Step(a, '=');
    var r := ScanFrom(KEY_START, Line(k, v));
    ScanBackslashes(KEY_START, k);
    SeparatorBackslashes(a);
    ScanBackslashes(b, v);
    ScanAppend(KEY_START, Escape(k), ['=']);
    ScanOne(a, '=');
    ScanAppend(KEY_START, Escape(k) + ['='], Escape(v));
    CountTrim('\\', r.key);
    CountTrim('\\', r.value);
    HeardBackslashes(k, false);
    HeardBackslashes(v, false);
  }

  lemma {:induction false} ColonsHeard(t: string, back: bool)
    ensures Count(':', Heard(t, back)) == Count(':', t)
  {
    if t != [] {
      ColonsHeard(t[1..], t[0] == '\\');
      CountAppend(':', Sound(t[0], back), Heard(t[1..], t[0] == '\\'));
      ColonSound(t[0], back);
    }
  }

  function Colons(k: string, v: string): int {
    Count(':', k)
  }

  /** A key loses colons unless it has none. */
  lemma LineColons(k: string, v: string)
    requires Trimmed(k) && Kept(k, false)
    ensures Colons(Read(k, v).0, Read(k, v).1) <= Colons(k, v)
    ensures Colons(Read(k, v).0, Read(k, v).1) == Colons(k, v) ==> !Cut(k, false)
  {
    ReadIs(k, v);
    if Cut(k, false) {
      CutCounts(k, v);
    } else {
      HeardKept(k, false);
      LineSplits(k, v);
      CountTrim(':', Heard(k, false));
      ColonsHeard(k, false);
    }
  }

  lemma ReadIs(k: string, v: string)
    requires Trimmed(k)
    ensures Read(k, v).0 == Trim(ScanFrom(KEY_START, Line(k, v)).key)
    ensures Read(k, v).1 == Trim(ScanFrom(KEY_START, Line(k, v)).value)
  {
    LineBackslashes(k, v);
    LineStart(k, v);
  }

  function Shortness(k: string, v: string): int {
    0 - |k| - |v|
  }

  lemma DoubledTrimmed(t: string)
    requires Trimmed(t)
    ensures Trim(Doubled(t)) == Doubled(t) && |Doubled(t)| >= |t| && (|Doubled(t)| == |t| ==> NoBlank(t))
  {
    if t != [] {
      DoubledEnds(t);
    }
    TrimTrimmed(Doubled(t));
  }

  /** Key and value get longer unless they hold no blank. */
  lemma LineLengths(k: string, v: string)
    requires Trimmed(k) && Trimmed(v) && Kept(k, false) && Kept(v, false) && !Cut(k, false)
    ensures Shortness(Read(k, v).0, Read(k, v).1) <= Shortness(k, v)
    ensures Shortness(Read(k, v).0, Read(k, v).1) == Shortness(k, v) ==> NoBlank(k) && NoBlank(v)
  {
    ReadIs(k, v);
    HeardKept(k, false);
    HeardKept(v, false);
    LineSplits(k, v);
    assert Heard(k, false) == Doubled(k) && Heard(v, false) == Doubled(v);
    DoubledTrimmed(k);
    DoubledTrimmed(v);
  }

  predicate Neat(m: Props) {
    forall k | k in m :: Trimmed(k) && Trimmed(m[k])
  }

  /** Whatever is loaded is trimmed. */
  lemma {:induction false} LoadedNeat(m: Props, pending: string, text: string)
    requires Neat(m)
    ensures Neat(Loaded(m, pending, text))
    decreases |text|
  {
    var entered := if pending == [] then m else Entered(m, pending);
    TrimTrimmed(ScanFrom(FRESH, pending).key);
    TrimTrimmed(ScanFrom(FRESH, pending).value);
    if text != [] {
      if text[0] == '\n' {
        LoadedNeat(entered, "", text[1..]);
      } else {
        LoadedNeat(m, pending + [text[0]], text[1..]);
      }
    }
  }

  /** A map that comes back holds only portable entries: summed over the entries, lines lose
      backslashes first, then colons in keys, then gain length, unless they are portable. */
  lemma ReturnedPortable(m: Props, order: seq<string>)
    requires (forall k :: k in order <==> k in m) && Distinct(order) && Flat(m) && Neat(m)
    requires Collected(m, order) == m
    ensures forall k | k in m :: Portable(k, m[k])
  {
    Sizes(m, order);
    assert Restricted(m, order) == m;
    forall k <- order
      ensures Backslashes(Read(k, m[k]).0, Read(k, m[k]).1) <= Backslashes(k, m[k])
    {
      LineBackslashes(k, m[k]);
    }
    Balanced(Backslashes, m, order);
    forall k <- order
      ensures Kept(k, false) && Kept(m[k], false)
      ensures Colons(Read(k, m[k]).0, Read(k, m[k]).1) <= Colons(k, m[k])
    {
      LineBackslashes(k, m[k]);
      LineColons(k, m[k]);
    }
    Balanced(Colons, m, order);
    forall k <- order
      ensures !Cut(k, false) && Shortness(Read(k, m[k]).0, Read(k, m[k]).1) <= Shortness(k, m[k])
    {
      LineColons(k, m[k]);
      LineLengths(k, m[k]);
    }
    Balanced(Shortness, m, order);
    forall k | k in m
      ensures Portable(k, m[k])
    {
      LineLengths(k, m[k]);
      CutAtColon(k, false);
    }
  }

  /** Loading what was stored gives the same map, whatever order the entries were written in, if and
      only if every entry is portable. */
  lemma RoundTripExactly(m: Props, order: seq<string>)
    requires (forall k :: k in order <==> k in m) && Distinct(order)
    ensures Loaded(map[], "", Text(m, order)) == m <==> forall k | k in m :: Portable(k, m[k])
  {
    if Loaded(map[], "", Text(m, order)) == m {
      LoadedFlat(map[], "", Text(m, order));
      LoadedNeat(map[], "", Text(m, order));
      LoadedCollected(m, order, "");
      assert Text(m, order) + "" == Text(m, order);
      ReturnedPortable(m, order);
    }
    if forall k | k in m :: Portable(k, m[k]) {
      RoundTrip(m, order);
    }
  }

  // ---- The writer over its buffers ----------------------------------------------------------------------

  const BUFFER_SIZE := 1024

  const TEXT_SIZE := 4096

  lemma {:induction false} EscapeAppend(a: string, b: string)
    ensures Escape(a + b) == Escape(a) + Escape(b)
  {
    if a == [] {
      assert a + b == b;
    } else {
      EscapeAppend(a[1..], b);
      assert (a + b)[1..] == a[1..] + b;
      Regroup(EscapeOne(a[0]), Escape(a[1..]), Escape(b));
    }
  }

  lemma EscapeNext(t: string, i: nat)
    requires i < |t|
    ensures Escape(t[..i + 1]) == Escape(t[..i]) + EscapeOne(t[i])
    ensures |Escape(t[..i + 1])| <= |Escape(t)|
  {
    assert t[..i + 1] == t[..i] + [t[i]];
    EscapeAppend(t[..i], [t[i]]);
    assert [t[i]][1..] == [];
    assert t == t[..i + 1] + t[i + 1..];
    EscapeAppend(t[..i + 1], t[i + 1..]);
  }

  ghost predicate Holds(buf: array<char>, t: string)
    reads buf
  {
    |t| <= buf.Length && buf[..|t|] == t
  }

  method PutChar(buf: array<char>, ghost t: string, j: nat, c: char)
    requires Holds(buf, t) && j == |t| && j < buf.Length
    modifies buf
    ensures Holds(buf, t + [c])
  {
    buf[j] := c;
  }

  /** A terminated string in a buffer. */
  ghost predicate Terminated(buf: array<char>, t: string)
    reads buf
  {
    |t| < buf.Length && buf[..|t|] == t && buf[|t|] == '\0'
  }

  method EscapeInto(t: string, buf: array<char>) returns (j: nat)
    requires |Escape(t)| < buf.Length
    modifies buf
    ensures j == |Escape(t)| && Terminated(buf, Escape(t))
  {
    j := 0;
    for i := 0 to |t|
      invariant j == |Escape(t[..i])| && |Escape(t[..i])| <= |Escape(t)| && Holds(buf, Escape(t[..i]))
    {
      EscapeNext(t, i);
      ghost var done := Escape(t[..i]);
      if Escaped(t[i]) {
        PutChar(buf, done, j, '\\');
        j := j + 1;
        done := done + ['\\'];
      }
      PutChar(buf, done, j, t[i]);
      j := j + 1;
    }
    assert t[..|t|] == t;
    buf[j] := '\0';
  }

  /** Appends a string to a terminated buffer. */
  method Append(buf: array<char>, ghost t: string, j: nat, more: string) returns (n: nat)
    requires Holds(buf, t) && j == |t| && |t| + |more| < buf.Length
    modifies buf
    ensures n == |t + more| && Terminated(buf, t + more)
  {
    n := j;
    for i := 0 to |more|
      invariant n == j + i && Holds(buf, t + more[..i])
    {
      PutChar(buf, t + more[..i], n, more[i]);
      assert t + more[..i] + [more[i]] == t + more[..i + 1];
      n := n + 1;
    }
    assert more[..|more|] == more;
    buf[n] := '\0';
  }

  lemma {:induction false} TextPrefix(m: Props, order: seq<string>, i: nat)
    requires (forall k <- order :: k in m) && i <= |order|
    ensures |Text(m, order[..i])| <= |Text(m, order)|
    decreases |order|
  {
    if i < |order| {
      TextPrefix(m, order[..|order| - 1], i);
      assert order[..|order| - 1][..i] == order[..i];
    } else {
      assert order[..i] == order;
    }
  }

  lemma TextNext(m: Props, order: seq<string>, i: nat)
    requires (forall k <- order :: k in m) && i < |order|
    ensures Text(m, order[..i + 1]) == Text(m, order[..i]) + Line(order[i], m[order[i]]) + ['\n']
  {
    assert order[..i + 1][..i] == order[..i];
  }

  /** One entry: escapes key and value into their own buffers, then prints both. */
  method StoreOne(k: string, v: string, text: array<char>, ghost t: string, j: nat) returns (n: nat)
    requires |Escape(k)| < BUFFER_SIZE && |Escape(v)| < BUFFER_SIZE
    requires Holds(text, t) && j == |t| && |t| + |Line(k, v)| + 1 < text.Length
    modifies text
    ensures n == |t + Line(k, v) + ['\n']| && Terminated(text, t + Line(k, v) + ['\n'])
  {
    var key := new char[BUFFER_SIZE];
    var value := new char[BUFFER_SIZE];
    var keyLen := EscapeInto(k, key);
    var valueLen := EscapeInto(v, value);
    var line := key[..keyLen] + ['='] + value[..valueLen] + ['\n'];
    assert t + line == t + Line(k, v) + ['\n'];
    n := Append(text, t, j, line);
  }

  /** Stores the properties in the order the hash table yields them. */
  method Store(m: Props, order: seq<string>, text: array<char>) returns (n: nat)
    requires (forall k <- order :: k in m) && order != []
    requires forall k <- order :: |Escape(k)| < BUFFER_SIZE && |Escape(m[k])| < BUFFER_SIZE
    requires text.Length == TEXT_SIZE && |Text(m, order)| < TEXT_SIZE
    modifies text
    ensures n == |Text(m, order)| && Terminated(text, Text(m, order))
  {
    n := 0;
    for i := 0 to |order|
      invariant n == |Text(m, order[..i])| && Holds(text, Text(m, order[..i]))
      invariant i > 0 ==> Terminated(text, Text(m, order[..i]))
    {
      TextPrefix(m, order, i + 1);
      TextNext(m, order, i);
      ghost var before := Text(m, order[..i]);
      n := StoreOne(order[i], m[order[i]], text, before, n);
    }
    assert order[..|order|] == order;
  }

  // ---- The reader over its buffers ------------------------------------------------------------------------

  /** What the scanner's variables and buffers stand for. */
  ghost predicate Shows(s: Scan, key: array<char>, value: array<char>, where: Where, pos: nat, back: bool)
    reads key, value
  {
    && key != value && !s.comment && s.where == where && s.back == back && pos == |Output(s)|
    && |s.key| < key.Length && |s.value| < value.Length
    && key[..|s.key|] == s.key && value[..|s.value|] == s.value
    && (if where.InValue? then key[|s.key|] == '\0' else s.value == [] && value[0] == '\0')
    && (where.Nowhere? ==> s.key == [] && key[0] == '\0')
  }

  predicate Fits(s: Scan) {
    |s.key| < BUFFER_SIZE && |s.value| < BUFFER_SIZE
  }

  method Write(ghost s: Scan, key: array<char>, value: array<char>, where: Where, pos: nat, back: bool, c: char)
      returns (next: nat)
    requires Shows(s, key, value, where, pos, back) && !where.Nowhere?
    requires key.Length == value.Length == BUFFER_SIZE && Fits(Emit(s, c))
    modifies key, value
    ensures Shows(Emit(s, c), key, value, where, next, back)
  {
    if where.InKey? {
      key[pos] := c;
    } else {
      value[pos] := c;
    }
    next := pos + 1;
  }

  lemma StepGrows(s: Scan, c: char)
    ensures |s.key| <= |Step(s, c).key| && |s.value| <= |Step(s, c).value|
  {
  }

  lemma {:induction false} ScanFits(s: Scan, line: string, i: nat)
    requires i <= |line|
    ensures |ScanFrom(s, line[..i]).key| <= |ScanFrom(s, line).key|
    ensures |ScanFrom(s, line[..i]).value| <= |ScanFrom(s, line).value|
    decreases |line|
  {
    if i < |line| {
      ScanFits(s, line[..|line| - 1], i);
      assert line[..|line| - 1][..i] == line[..i];
      StepGrows(ScanFrom(s, line[..|line| - 1]), line[|line| - 1]);
    } else {
      assert line[..i] == line;
    }
  }

  /** One character. */
  method Turn(ghost s: Scan, key: array<char>, value: array<char>, where: Where, pos: nat, back: bool, c: char)
      returns (where': Where, pos': nat, back': bool, comment: bool)
    requires Shows(s, key, value, where, pos, back)
    requires key.Length == value.Length == BUFFER_SIZE && Fits(Step(s, c))
    modifies key, value
    ensures comment == Step(s, c).comment
    ensures Shows(Step(s, c).(comment := false), key, value, where', pos', back')
  {
    where', pos', back', comment := where, pos, back, false;
    if Blank(c) {
      if where.Nowhere? {
        return;
      }
      pos' := Write(s, key, value, where, pos, back, c);
      pos' := Write(Emit(s, c), key, value, where, pos', back, c);
      back' := false;
      return;
    }
    ghost var t := if s.where.Nowhere? then s.(where := InKey) else s;
    if where'.Nowhere? {
      where' := InKey;
    }
    if Escaped(c) || c == ':' {
      if back {
        pos' := Write(t, key, value, where', pos, back, c);
        back' := false;
      } else if c == '#' || c == '!' {
        if pos == 0 {
          comment := true;
        } else {
          pos' := Write(t, key, value, where', pos, back, c);
        }
      } else if where'.InValue? {
        pos' := Write(t, key, value, where', pos, back, c);
      } else {
        key[pos] := '\0';
        where', pos' := InValue, 0;
      }
    } else if c == '\\' {
      if back {
        pos' := Write(t, key, value, where', pos, back, c);
      }
      back' := true;
    } else {
      pos' := Write(t, key, value, where', pos, back, c);
      back' := false;
    }
  }

  /** Reads one line into the two buffers; it is safe exactly when what it puts out fits. */
  method ScanLine(line: string, key: array<char>, value: array<char>) returns (comment: bool)
    requires key != value && key.Length == value.Length == BUFFER_SIZE && Fits(ScanFrom(FRESH, line))
    modifies key, value
    ensures comment == ScanFrom(FRESH, line).comment
    ensures !comment ==> Terminated(key, ScanFrom(FRESH, line).key) && Terminated(value, ScanFrom(FRESH, line).value)
  {
    var where, back := Nowhere, false;
    var pos: nat := 0;
    key[0], value[0], comment := '\0', '\0', false;
    for i := 0 to |line|
      invariant !comment && Shows(ScanFrom(FRESH, line[..i]), key, value, where, pos, back)
    {
      ScanFits(FRESH, line, i + 1);
      ghost var s := ScanFrom(FRESH, line[..i]);
      assert line[..i + 1][..i] == line[..i];
      where, pos, back, comment := Turn(s, key, value, where, pos, back, line[i]);
      if comment {
        CommentStays(line, i + 1);
        return;
      }
    }
    assert line[..|line|] == line;
    if where.InKey? {
      key[pos] := '\0';
    } else if where.InValue? {
      value[pos] := '\0';
    }
  }

  lemma {:induction false} CommentStays(line: string, i: nat)
    requires i <= |line| && ScanFrom(FRESH, line[..i]).comment
    ensures ScanFrom(FRESH, line).comment
    decreases |line|
  {
    if i < |line| {
      assert line[..|line| - 1][..i] == line[..i];
      CommentStays(line[..|line| - 1], i);
    } else {
      assert line[..i] == line;
    }
  }

  predicate LineFits(line: string) {
    Fits(ScanFrom(FRESH, line))
  }

  /** Every line of a text fits the reader's buffers. */
  predicate TextFits(pending: string, text: string)
    decreases |text|
  {
    if text == [] then LineFits(pending)
    else if text[0] == '\n' then LineFits(pending) && TextFits("", text[1..])
    else TextFits(pending + [text[0]], text[1..])
  }

  lemma {:induction false} TextFitsLine(pending: string, line: string, rest: string)
    requires OneLine(line)
    ensures TextFits(pending, line + rest) == TextFits(pending + line, rest)
    decreases |line|
  {
    if line == [] {
      assert line + rest == rest && pending + line == pending;
    } else {
      TextFitsLine(pending + [line[0]], line[1..], rest);
      assert (line + rest)[1..] == line[1..] + rest;
      assert pending + [line[0]] + line[1..] == pending + line;
    }
  }

  method CString(buf: array<char>, ghost t: string) returns (r: string)
    requires Terminated(buf, t) && '\0' !in t
    ensures r == t
  {
    var n := 0;
    while buf[n] != '\0'
      invariant n <= |t| && (n < |t| ==> buf[n] == t[n])
      decreases |t| - n
    {
      n := n + 1;
      assert n < |t| ==> buf[n] == buf[..|t|][n];
    }
    return buf[..n];
  }

  lemma {:induction false} ScanNoNul(s: Scan, line: string)
    requires '\0' !in line && '\0' !in s.key && '\0' !in s.value
    ensures '\0' !in ScanFrom(s, line).key && '\0' !in ScanFrom(s, line).value
  {
    if line != [] {
      ScanNoNul(s, line[..|line| - 1]);
    }
  }

  /** Scans a line and enters it unless its key is already there. */
  method EnterLine(m: Props, line: string) returns (r: Props)
    requires LineFits(line) && '\0' !in line
    ensures r == Entered(m, line)
  {
    r := m;
    var key := new char[BUFFER_SIZE];
    var value := new char[BUFFER_SIZE];
    ghost var s := ScanFrom(FRESH, line);
    ScanNoNul(FRESH, line);
    var comment := ScanLine(line, key, value);
    if !comment {
      var k := CString(key, s.key);
      var v := CString(value, s.value);
      if Trim(k) !in m {
        r := m[Trim(k) := Trim(v)];
      }
    }
  }

  /** The end of the line that starts here. */
  method LineEnd(text: string, start: nat) returns (end: nat)
    requires start <= |text|
    ensures start <= end <= |text| && OneLine(text[start..end]) && (end < |text| ==> text[end] == '\n')
    ensures start < |text| && text[start] != '\n' ==> start < end
  {
    end := start;
    while end < |text| && text[end] != '\n'
      invariant start <= end <= |text| && OneLine(text[start..end])
    {
      end := end + 1;
    }
  }

  lemma LoadNext(m: Props, text: string, start: nat, end: nat)
    requires start < end <= |text| && OneLine(text[start..end]) && (end < |text| ==> text[end] == '\n')
    ensures var rest := if end < |text| then text[end + 1..] else [];
            && Loaded(m, "", text[start..]) == Loaded(Entered(m, text[start..end]), "", rest)
            && (TextFits("", text[start..]) ==> LineFits(text[start..end]) && TextFits("", rest))
  {
    var line, rest := text[start..end], text[end..];
    assert text[start..] == line + rest;
    LoadedLine(m, "", line, rest);
    TextFitsLine("", line, rest);
    assert "" + line == line;
    if end < |text| {
      assert rest[1..] == text[end + 1..];
    }
  }

  method Load(text: string, properties: Props) returns (m: Props)
    requires TextFits("", text) && '\0' !in text
    ensures m == Loaded(properties, "", text)
  {
    m := properties;
    var pos := 0;
    assert text[0..] == text;
    while pos < |text|
      invariant pos <= |text| && TextFits("", text[pos..])
      invariant Loaded(m, "", text[pos..]) == Loaded(properties, "", text)
    {
      if text[pos] == '\n' {
        assert text[pos..][1..] == text[pos + 1..];
        pos := pos + 1;
      } else {
        var end := LineEnd(text, pos);
        LoadNext(m, text, pos, end);
        m := EnterLine(m, text[pos..end]);
        pos := if end < |text| then end + 1 else end;
      }
    }
  }

  // ---- Both together ----------------------------------------------------------------------------------------

  lemma {:induction false} EscapeNoNul(t: string)
    requires '\0' !in t
    ensures '\0' !in Escape(t) && |t| <= |Escape(t)|
  {
    if t != [] {
      EscapeNoNul(t[1..]);
    }
  }

  lemma EntryFits(k: string, v: string)
    requires Portable(k, v) && |k| < BUFFER_SIZE && |v| < BUFFER_SIZE
    ensures LineFits(Line(k, v))
  {
    LineStart(k, v);
    CutAtColon(k, false);
    SurvivesForward(k);
    SurvivesForward(v);
    LineSplits(k, v);
  }

  predicate Storable(k: string, v: string) {
    && Portable(k, v) && '\0' !in k && '\0' !in v
    && |Escape(k)| < BUFFER_SIZE && |Escape(v)| < BUFFER_SIZE
  }

  lemma {:induction false} StoredNoNul(m: Props, order: seq<string>)
    requires forall k <- order :: k in m && Storable(k, m[k])
    ensures '\0' !in Text(m, order)
  {
    if order != [] {
      var k := order[|order| - 1];
      assert k in order && Storable(k, m[k]);
      StoredNoNul(m, order[..|order| - 1]);
      EscapeNoNul(k);
      EscapeNoNul(m[k]);
    }
  }

  lemma LineThenFits(k: string, v: string, rest: string)
    requires Storable(k, v) && TextFits("", rest)
    ensures TextFits("", Line(k, v) + (['\n'] + rest))
  {
    EscapeNoNul(k);
    EscapeNoNul(v);
    EscapeOneLine(k);
    EscapeOneLine(v);
    EntryFits(k, v);
    assert OneLine(Line(k, v));
    TextFitsLine("", Line(k, v), ['\n'] + rest);
    assert "" + Line(k, v) == Line(k, v);
    assert (['\n'] + rest)[1..] == rest;
  }

  lemma {:induction false} StoredFits(m: Props, order: seq<string>, rest: string)
    requires (forall k <- order :: k in m && Storable(k, m[k])) && TextFits("", rest)
    ensures TextFits("", Text(m, order) + rest)
  {
    if order == [] {
      assert Text(m, order) + rest == rest;
    } else {
      var before, k := order[..|order| - 1], order[|order| - 1];
      var line := Line(k, m[k]);
      LineThenFits(k, m[k], rest);
      StoredFits(m, before, line + (['\n'] + rest));
      Regroup(Text(m, before) + line, ['\n'], rest);
      Regroup(Text(m, before), line, ['\n'] + rest);
    }
  }

  /** Storing and loading again gives back the properties, in every order. */
  method StoreAndLoad(m: Props, order: seq<string>) returns (loaded: Props)
    requires order != [] && (forall k :: k in order <==> k in m) && forall k | k in m :: Storable(k, m[k])
    requires |Text(m, order)| < TEXT_SIZE
    ensures loaded == m
  {
    var text := new char[TEXT_SIZE];
    var n := Store(m, order, text);
    StoredNoNul(m, order);
    StoredFits(m, order, "");
    assert Text(m, order) + "" == Text(m, order);
    RoundTrip(m, order);
    loaded := Load(text[..n], map[]);
  }
}
