/**
  The canonical JSON printer used for record hashes, and the parser that shows what its output
  still determines.  JSON text follows RFC 8259; keys are ordered by UTF-16 code unit.
 */
module CanonicalJson {
  import opened Sequences
  import opened Options
  import opened Utf16
  import NumberText

  /** A JavaScript value.  `Absent` is `undefined`; `Obj` lists own properties in insertion order. */
  datatype Json =
    | Null
    | Absent
    | Bool(b: bool)
    | Num(num: NumberText.Number)
    | Str(text: Text)
    | Arr(items: seq<Json>)
    | Obj(props: seq<Entry<Json>>)

  datatype Entry<+V> = Entry(key: Text, val: V)

  /** What JavaScript guarantees of every value: no repeated key, numbers in shortest form. */
  predicate Valid(t: Json) {
    match t
    case Num(x) => x.Valid()
    case Arr(items) => forall x :: x in items ==> Valid(x)
    case Obj(props) => DistinctKeys(props) && forall p :: p in props ==> Valid(p.val)
    case _ => true
  }

  predicate DistinctKeys<V>(ps: seq<Entry<V>>) {
    forall i, j :: 0 <= i < j < |ps| ==> ps[i].key != ps[j].key
  }

  // ---- key order ---------------------------------------------------------

  /** Strict order of strings by code unit. */
  predicate Less(a: Text, b: Text) {
    if b == [] then false
    else if a == [] then true
    else if a[0] != b[0] then a[0] < b[0]
    else Less(a[1..], b[1..])
  }

  lemma {:induction false} LessTransitive(a: Text, b: Text, c: Text)
    requires Less(a, b) && Less(b, c)
    ensures Less(a, c)
  {
    if a != [] && a[0] == b[0] == c[0] {
      LessTransitive(a[1..], b[1..], c[1..]);
    }
  }

  lemma {:induction false} LessTotal(a: Text, b: Text)
    ensures (Less(a, b) || Less(b, a)) <==> a != b
    ensures !(Less(a, b) && Less(b, a))
  {
    if a != [] && b != [] {
      LessTotal(a[1..], b[1..]);
      assert a == [a[0]] + a[1..] && b == [b[0]] + b[1..];
    }
  }

  predicate Sorted<V>(ps: seq<Entry<V>>) {
    forall i, j :: 0 <= i < j < |ps| ==> Less(ps[i].key, ps[j].key)
  }

  function Insert<V(!new)>(p: Entry<V>, ps: seq<Entry<V>>): (r: seq<Entry<V>>)
    ensures |r| == |ps| + 1
    ensures forall q :: q in r <==> q == p || q in ps
  {
    if ps == [] || Less(p.key, ps[0].key) then [p] + ps
    else [ps[0]] + Insert(p, ps[1..])
  }

  /** `Object.keys(obj).sort()`, carrying each key's value along. */
  function Sort<V(!new)>(ps: seq<Entry<V>>): (r: seq<Entry<V>>)
    ensures |r| == |ps|
    ensures forall q :: q in r <==> q in ps
  {
    if ps == [] then [] else Insert(ps[0], Sort(ps[1..]))
  }

  lemma {:induction false} InsertSorted<V(!new)>(p: Entry<V>, ps: seq<Entry<V>>)
    requires Sorted(ps) && forall q :: q in ps ==> q.key != p.key
    ensures Sorted(Insert(p, ps))
  {
    if ps == [] {
    } else if Less(p.key, ps[0].key) {
      forall j | 0 <= j < |ps| ensures Less(p.key, ps[j].key) {
        if j > 0 {
          LessTransitive(p.key, ps[0].key, ps[j].key);
        }
      }
    } else {
      LessTotal(p.key, ps[0].key);
      var tail := Insert(p, ps[1..]);
      InsertSorted(p, ps[1..]);
      forall j | 0 <= j < |tail| ensures Less(ps[0].key, tail[j].key) {
        assert tail[j] in tail;
      }
    }
  }

  lemma {:induction false} SortSorted<V(!new)>(ps: seq<Entry<V>>)
    requires DistinctKeys(ps)
    ensures Sorted(Sort(ps))
  {
    if ps != [] {
      SortSorted(ps[1..]);
      InsertSorted(ps[0], Sort(ps[1..]));
    }
  }

  lemma SortedDistinct<V(!new)>(ps: seq<Entry<V>>)
    requires Sorted(ps)
    ensures DistinctKeys(ps)
  {
    forall i, j | 0 <= i < j < |ps| ensures ps[i].key != ps[j].key {
      LessTotal(ps[i].key, ps[j].key);
    }
  }

  /** A sorted list is determined by its members. */
  lemma {:induction false} SortedUnique<V(!new)>(ps: seq<Entry<V>>, qs: seq<Entry<V>>)
    requires Sorted(ps) && Sorted(qs)
    requires forall p :: p in ps <==> p in qs
    ensures ps == qs
  {
    assert ps != [] ==> ps[0] in qs;
    assert qs != [] ==> qs[0] in ps;
    if ps != [] {
      SameHead(ps, qs);
      forall p ensures p in ps[1..] <==> p in qs[1..] {
        SortedDistinct(ps);
        SortedDistinct(qs);
        assert p in ps <==> p == ps[0] || p in ps[1..];
        assert p in qs <==> p == qs[0] || p in qs[1..];
      }
      SortedUnique(ps[1..], qs[1..]);
      assert ps == [ps[0]] + ps[1..] && qs == [qs[0]] + qs[1..];
    }
  }

  lemma SameHead<V(!new)>(ps: seq<Entry<V>>, qs: seq<Entry<V>>)
    requires Sorted(ps) && Sorted(qs) && ps != [] && qs != []
    requires forall p :: p in ps <==> p in qs
    ensures ps[0] == qs[0]
  {
    assert ps[0] in qs && qs[0] in ps;
    LessTotal(ps[0].key, qs[0].key);
  }

  lemma SortIdentity<V(!new)>(ps: seq<Entry<V>>)
    requires Sorted(ps)
    ensures Sort(ps) == ps
  {
  }

  // ---- printing ----------------------------------------------------------

  const QUOTE: Unit := 34
  const BACKSLASH: Unit := 92
  const COMMA: Unit := 44
  const COLON: Unit := 58
  const LBRACK: Unit := 91
  const RBRACK: Unit := 93
  const LBRACE: Unit := 123
  const RBRACE: Unit := 125
  const LETTER_U: Unit := 117
  const NULL_TEXT: Text := [110, 117, 108, 108]
  const TRUE_TEXT: Text := [116, 114, 117, 101]
  const FALSE_TEXT: Text := [102, 97, 108, 115, 101]
  const UNDEFINED_TEXT: Text := [117, 110, 100, 101, 102, 105, 110, 101, 100]

  function HexDigit(n: int): Unit
    requires 0 <= n < 16
  {
    if n < 10 then 48 + n else 87 + n
  }

  function HexValue(u: Unit): (n: int)
    ensures -1 <= n < 16
  {
    if 48 <= u <= 57 then u - 48 else if 97 <= u <= 102 then u - 87 else -1
  }

  function Hex4(u: Unit): Text {
    [HexDigit(u / 4096), HexDigit(u / 256 % 16), HexDigit(u / 16 % 16), HexDigit(u % 16)]
  }

  /** The letter of a two-character escape, or None. */
  function ShortEscape(u: Unit): Option<Unit> {
    if u == 8 then Some(98)
    else if u == 9 then Some(116)
    else if u == 10 then Some(110)
    else if u == 12 then Some(102)
    else if u == 13 then Some(114)
    else if u == QUOTE || u == BACKSLASH then Some(u)
    else None
  }

  function EscapeUnit(u: Unit): Text {
    match ShortEscape(u)
    case Some(letter) => [BACKSLASH, letter]
    case None =>
      if u < 32 || IsSurrogate(u) then [BACKSLASH, LETTER_U] + Hex4(u) else [u]
  }

  function HeadWidth(s: Text): (n: nat)
    requires s != []
    ensures 0 < n <= |s|
  {
    if StartsWithPair(s) then 2 else 1
  }

  /** The first character of a string: a surrogate pair stays, a lone surrogate is escaped. */
  function EscapeHead(s: Text): Text
    requires s != []
  {
    if StartsWithPair(s) then s[..2] else EscapeUnit(s[0])
  }

  function Escape(s: Text): Text {
    if s == [] then [] else EscapeHead(s) + Escape(s[HeadWidth(s)..])
  }

  function Quote(s: Text): Text { [QUOTE] + Escape(s) + [QUOTE] }

  function Join(parts: seq<Text>): Text {
    if parts == [] then []
    else if |parts| == 1 then parts[0]
    else parts[0] + [COMMA] + Join(parts[1..])
  }

  function EntryText(e: Entry<Text>): Text { Quote(e.key) + [COLON] + e.val }

  function EntryLines(es: seq<Entry<Text>>): (r: seq<Text>)
    ensures |r| == |es|
  {
    if es == [] then [] else [EntryText(es[0])] + EntryLines(es[1..])
  }

  /** `canonicalJsonStringify`; None is the value undefined, which is not a string. */
  function Print(t: Json): (r: Option<Text>)
    requires Valid(t)
    ensures r.None? <==> t.Absent?
    decreases t, 0
  {
    match t
    case Null => Some(NULL_TEXT)
    case Absent => None
    case Bool(b) => Some(if b then TRUE_TEXT else FALSE_TEXT)
    case Num(x) => Some(if x.NonFinite? then NULL_TEXT else NumberText.Print(x))
    case Str(s) => Some(Quote(s))
    case Arr(items) => Some([LBRACK] + Join(ItemTexts(items)) + [RBRACK])
    case Obj(props) => Some([LBRACE] + Join(EntryLines(Sort(EntryTexts(props)))) + [RBRACE])
  }

  /** Array elements under `join(",")`, which renders undefined as the empty string. */
  function ItemTexts(items: seq<Json>): (r: seq<Text>)
    requires forall x :: x in items ==> Valid(x)
    ensures |r| == |items|
    decreases items, 0
  {
    if items == [] then []
    else
      var first := Print(items[0]);
      [if first.None? then [] else first.value] + ItemTexts(items[1..])
  }

  /** Property values; string concatenation renders undefined by its name. */
  function EntryTexts(props: seq<Entry<Json>>): (r: seq<Entry<Text>>)
    requires forall p :: p in props ==> Valid(p.val)
    ensures |r| == |props|
    ensures forall i :: 0 <= i < |r| ==> r[i] == Entry(props[i].key, ValueText(props[i].val))
    decreases props, 1
  {
    if props == [] then []
    else [Entry(props[0].key, ValueText(props[0].val))] + EntryTexts(props[1..])
  }

  function ValueText(t: Json): Text
    requires Valid(t)
    decreases t, 1
  {
    match Print(t)
    case None => UNDEFINED_TEXT
    case Some(text) => text
  }

  // ---- parsing -----------------------------------------------------------

  // A reader of JSON text without white space (RFC 8259), by its code points: [ 91, ] 93, { 123, } 125,
  // comma 44, colon 58, quote 34, backslash 92, u 117.  It shares no punctuation with the printer.  Beyond
  // JSON it takes what the printer makes of undefined: the bare word, and an empty array element.

  datatype Parsed<+T> = Fail | Ok(val: T, rest: Text)

  function ShortUnescape(letter: Unit): Option<Unit> {
    if letter == 98 then Some(8)
    else if letter == 116 then Some(9)
    else if letter == 110 then Some(10)
    else if letter == 102 then Some(12)
    else if letter == 114 then Some(13)
    else if letter == 34 || letter == 92 then Some(letter)
    else None
  }

  function HexUnit(h: Text): Option<Unit>
    requires |h| == 4
  {
    var a, b, c, d := HexValue(h[0]), HexValue(h[1]), HexValue(h[2]), HexValue(h[3]);
    if a < 0 || b < 0 || c < 0 || d < 0 then None else Some(a * 4096 + b * 256 + c * 16 + d)
  }

  /** One possibly escaped unit of a string body. */
  function ParseUnit(s: Text): (r: Parsed<Unit>)
    ensures r.Ok? ==> |r.rest| < |s|
  {
    if s == [] || s[0] == 34 || s[0] < 32 then Fail
    else if s[0] != 92 then Ok(s[0], s[1..])
    else if |s| >= 6 && s[1] == 117 then
      match HexUnit(s[2..6])
      case None => Fail
      case Some(u) => Ok(u, s[6..])
    else if |s| >= 2 && ShortUnescape(s[1]).Some? then Ok(ShortUnescape(s[1]).value, s[2..])
    else Fail
  }

  /** A string body and its closing quote. */
  function ParseChars(s: Text): (r: Parsed<Text>)
    ensures r.Ok? ==> |r.rest| < |s|
    decreases |s|
  {
    if s != [] && s[0] == 34 then Ok([], s[1..])
    else
      match ParseUnit(s)
      case Fail => Fail
      case Ok(u, rest) =>
        match ParseChars(rest)
        case Fail => Fail
        case Ok(us, rest') => Ok([u] + us, rest')
  }

  function NumberSpan(s: Text, i: nat := 0): (k: nat)
    requires i <= |s|
    ensures i <= k <= |s| && (forall j :: i <= j < k ==> NumberText.IsNumberUnit(s[j]))
    ensures k < |s| ==> !NumberText.IsNumberUnit(s[k])
    decreases |s| - i
  {
    if i == |s| || !NumberText.IsNumberUnit(s[i]) then i else NumberSpan(s, i + 1)
  }

  function ParseValue(s: Text): (r: Parsed<Json>)
    ensures r.Ok? ==> |r.rest| < |s|
    decreases |s|, 0
  {
    if s == [] then Fail
    else if s[0] == 34 then
      match ParseChars(s[1..])
      case Fail => Fail
      case Ok(text, rest) => Ok(Str(text), rest)
    else if s[0] == 91 then AfterBracket(s[1..])
    else if s[0] == 123 then AfterBrace(s[1..])
    else ParseWord(s)
  }

  function AfterBracket(s: Text): (r: Parsed<Json>)
    ensures r.Ok? ==> |r.rest| < |s|
    decreases |s|, 3
  {
    if s != [] && s[0] == 93 then Ok(Arr([]), s[1..])
    else
      match ParseItems(s)
      case Fail => Fail
      case Ok(items, rest) => Ok(Arr(items), rest)
  }

  function AfterBrace(s: Text): (r: Parsed<Json>)
    ensures r.Ok? ==> |r.rest| < |s|
    decreases |s|, 3
  {
    if s != [] && s[0] == 125 then Ok(Obj([]), s[1..])
    else
      match ParseProps(s)
      case Fail => Fail
      case Ok(props, rest) => Ok(Obj(props), rest)
  }

  function ParseWord(s: Text): (r: Parsed<Json>)
    ensures r.Ok? ==> |r.rest| < |s|
  {
    if [110, 117, 108, 108] <= s then Ok(Null, s[4..])
    else if [116, 114, 117, 101] <= s then Ok(Bool(true), s[4..])
    else if [102, 97, 108, 115, 101] <= s then Ok(Bool(false), s[5..])
    else if [117, 110, 100, 101, 102, 105, 110, 101, 100] <= s then Ok(Absent, s[9..])
    else ParseNumeral(s)
  }

  function ParseNumeral(s: Text): (r: Parsed<Json>)
    ensures r.Ok? ==> |r.rest| < |s|
  {
    var k := NumberSpan(s);
    if k > 0 && NumberText.IsJsonNumber(s[..k]) then Ok(Num(NumberText.Read(s[..k])), s[k..]) else Fail
  }

  function ParseItem(s: Text): (r: Parsed<Json>)
    ensures r.Ok? ==> |r.rest| <= |s|
    decreases |s|, 1
  {
    if s != [] && (s[0] == 44 || s[0] == 93) then Ok(Absent, s) else ParseValue(s)
  }

  /** One or more array elements and the closing bracket; an empty element reads as undefined. */
  function ParseItems(s: Text): (r: Parsed<seq<Json>>)
    ensures r.Ok? ==> |r.rest| < |s|
    decreases |s|, 2
  {
    match ParseItem(s)
    case Fail => Fail
    case Ok(x, rest) =>
      if rest == [] then Fail
      else if rest[0] == 93 then Ok([x], rest[1..])
      else if rest[0] != 44 then Fail
      else
        match ParseItems(rest[1..])
        case Fail => Fail
        case Ok(xs, rest') => Ok([x] + xs, rest')
  }

  function ParseProp(s: Text): (r: Parsed<Entry<Json>>)
    ensures r.Ok? ==> |r.rest| < |s|
    decreases |s|, 1
  {
    if s == [] || s[0] != 34 then Fail
    else
      match ParseChars(s[1..])
      case Fail => Fail
      case Ok(key, rest) =>
        if rest == [] || rest[0] != 58 then Fail
        else
          match ParseValue(rest[1..])
          case Fail => Fail
          case Ok(v, rest') => Ok(Entry(key, v), rest')
  }

  /** One or more properties and the closing brace. */
  function ParseProps(s: Text): (r: Parsed<seq<Entry<Json>>>)
    ensures r.Ok? ==> |r.rest| < |s|
    decreases |s|, 2
  {
    match ParseProp(s)
    case Fail => Fail
    case Ok(p, rest) =>
      if rest == [] then Fail
      else if rest[0] == 125 then Ok([p], rest[1..])
      else if rest[0] != 44 then Fail
      else
        match ParseProps(rest[1..])
        case Fail => Fail
        case Ok(ps, rest') => Ok([p] + ps, rest')
  }

  // ---- strings survive ---------------------------------------------------

  lemma UnitRoundTrip(u: Unit, rest: Text)
    ensures ParseUnit(EscapeUnit(u) + rest) == Ok(u, rest)
  {
    var s := EscapeUnit(u) + rest;
    assert s[|EscapeUnit(u)|..] == rest;
    if ShortEscape(u).None? && (u < 32 || IsSurrogate(u)) {
      assert s[2..6] == Hex4(u);
      HexRoundTrip(u);
    }
  }

  lemma HexRoundTrip(u: Unit)
    ensures HexUnit(Hex4(u)) == Some(u)
  {
    assert u / 256 == u / 4096 * 16 + u / 256 % 16;
    assert u / 16 == u / 256 * 16 + u / 16 % 16;
  }

  lemma ParseOneMore(text: Text, u: Unit, tail: Text, us: Text, rest: Text)
    requires text != [] && text[0] != QUOTE
    requires ParseUnit(text + tail) == Ok(u, tail)
    requires ParseChars(tail) == Ok(us, rest)
    ensures ParseChars(text + tail) == Ok([u] + us, rest)
  {
  }

  lemma PairStep(pair: Text, tail: Text, us: Text, rest: Text)
    requires |pair| == 2 && StartsWithPair(pair)
    requires ParseChars(tail) == Ok(us, rest)
    ensures ParseChars(pair + tail) == Ok(pair + us, rest)
  {
    var first: Text, second: Text := [pair[0]], [pair[1]];
    TwoThen(pair, tail);
    TwoThen(pair, us);
    ParseOneMore(second, pair[1], tail, us, rest);
    ParseOneMore(first, pair[0], second + tail, second + us, rest);
  }

  lemma UnitStep(u: Unit, tail: Text, us: Text, rest: Text)
    requires ParseChars(tail) == Ok(us, rest)
    ensures ParseChars(EscapeUnit(u) + tail) == Ok([u] + us, rest)
  {
    UnitRoundTrip(u, tail);
    ParseOneMore(EscapeUnit(u), u, tail, us, rest);
  }

  lemma HeadStep(s: Text, tail: Text, rest: Text)
    requires s != []
    requires ParseChars(tail) == Ok(s[HeadWidth(s)..], rest)
    ensures ParseChars(EscapeHead(s) + tail) == Ok(s, rest)
  {
    var n := HeadWidth(s);
    if n == 2 {
      PairStep(s[..2], tail, s[2..], rest);
    } else {
      UnitStep(s[0], tail, s[1..], rest);
      assert [s[0]] == s[..1];
    }
    TakeDrop(s, n);
  }

  lemma EscapeStep(s: Text, end: Text)
    requires s != []
    ensures Escape(s) + end == EscapeHead(s) + (Escape(s[HeadWidth(s)..]) + end)
  {
  }

  lemma {:induction false} CharsRoundTrip(s: Text, rest: Text)
    ensures ParseChars(Escape(s) + ([QUOTE] + rest)) == Ok(s, rest)
  {
    var end := [QUOTE] + rest;
    if s == [] {
      assert Escape(s) + end == end;
    } else {
      var tail := s[HeadWidth(s)..];
      CharsRoundTrip(tail, rest);
      EscapeStep(s, end);
      HeadStep(s, Escape(tail) + end, rest);
    }
  }

  lemma QuoteRoundTrip(s: Text, rest: Text)
    ensures |Quote(s)| > 0 && Quote(s)[0] == QUOTE
    ensures ParseChars((Quote(s) + rest)[1..]) == Ok(s, rest)
  {
    CharsRoundTrip(s, rest);
    Enclosed(QUOTE, Escape(s), rest);
  }

  // ---- normal forms ------------------------------------------------------

  /** What the text keeps of a value: key order, NaN, -0 and [undefined] are gone. */
  function Norm(t: Json): (n: Json)
    requires Valid(t)
    decreases t, 0
  {
    match t
    case Num(x) => if x.NonFinite? then Null else if x.NegZero? then Num(NumberText.Zero) else t
    case Arr(items) => if items == [Absent] then Arr([]) else Arr(NormItems(items))
    case Obj(props) => Obj(Sort(NormProps(props)))
    case _ => t
  }

  function NormItems(items: seq<Json>): (r: seq<Json>)
    requires forall x :: x in items ==> Valid(x)
    ensures |r| == |items| && forall i :: 0 <= i < |r| ==> r[i] == Norm(items[i])
    decreases items, 1
  {
    if items == [] then [] else [Norm(items[0])] + NormItems(items[1..])
  }

  function NormProps(props: seq<Entry<Json>>): (r: seq<Entry<Json>>)
    requires forall p :: p in props ==> Valid(p.val)
    ensures |r| == |props|
    ensures forall i :: 0 <= i < |r| ==> r[i] == Entry(props[i].key, Norm(props[i].val))
    decreases props, 1
  {
    if props == [] then [] else [Entry(props[0].key, Norm(props[0].val))] + NormProps(props[1..])
  }

  predicate Normal(t: Json) {
    match t
    case Num(x) => x.Valid() && !x.NonFinite? && !x.NegZero?
    case Arr(items) => items != [Absent] && forall x :: x in items ==> Normal(x)
    case Obj(props) => Sorted(props) && forall p :: p in props ==> Normal(p.val)
    case _ => true
  }

  lemma {:induction false} NormalValid(t: Json)
    requires Normal(t)
    ensures Valid(t)
  {
    match t
    case Arr(items) =>
      forall x | x in items ensures Valid(x) {
        NormalValid(x);
      }
    case Obj(props) =>
      SortedDistinct(props);
      forall p | p in props ensures Valid(p.val) {
        NormalValid(p.val);
      }
    case _ =>
  }

  // ---- the parser undoes the printer -------------------------------------

  /** A number ends where the text does or at a unit no number contains. */
  predicate Delimited(rest: Text) {
    rest == [] || !NumberText.IsNumberUnit(rest[0])
  }

  /** No value's text begins like a separator or a closing bracket. */
  predicate StartsValue(text: Text) {
    text != [] && text[0] !in {COMMA, RBRACK, RBRACE}
  }

  lemma ValueStart(t: Json)
    requires Valid(t)
    ensures StartsValue(ValueText(t))
  {
  }

  predicate ReadsValue(t: Json, rest: Text)
    requires Valid(t)
  {
    ParseValue(ValueText(t) + rest) == Ok(t, rest)
  }

  lemma SpanEnds(text: Text, rest: Text)
    requires NumberText.AllNumberUnits(text) && Delimited(rest)
    ensures NumberSpan(text + rest) == |text|
  {
    var s := text + rest;
    assert forall j :: 0 <= j < |text| ==> s[j] == text[j];
    assert rest != [] ==> s[|text|] == rest[0];
  }

  lemma NotAWord(s: Text)
    requires s != [] && (NumberText.IsDigit(s[0]) || s[0] == NumberText.MINUS)
    ensures !(NULL_TEXT <= s) && !(TRUE_TEXT <= s) && !(FALSE_TEXT <= s) && !(UNDEFINED_TEXT <= s)
  {
  }

  lemma NumeralReads(text: Text, rest: Text)
    requires text != [] && NumberText.IsJsonNumber(text) && NumberSpan(text + rest) == |text|
    ensures ParseNumeral(text + rest) == Ok(Num(NumberText.Read(text)), rest)
  {
    var s := text + rest;
    assert s[..|text|] == text && s[|text|..] == rest;
  }

  lemma ParseNumber(s: Text)
    requires s != [] && (NumberText.IsDigit(s[0]) || s[0] == NumberText.MINUS)
    ensures ParseValue(s) == ParseNumeral(s)
  {
    NotAWord(s);
    assert ParseWord(s) == ParseNumeral(s);
  }

  lemma NumberReads(x: NumberText.Number, rest: Text)
    requires x.Valid() && !x.NonFinite? && !x.NegZero? && Delimited(rest)
    ensures ReadsValue(Num(x), rest)
  {
    var text := NumberText.Print(x);
    assert NumberText.Read(text) == x by {
      NumberText.RoundTrip(x);
    }
    NumberText.PrintShape(x);
    NumberText.PrintIsJson(x);
    SpanEnds(text, rest);
    NumeralReads(text, rest);
    assert (text + rest)[0] == text[0];
    ParseNumber(text + rest);
    assert ValueText(Num(x)) == text;
  }

  lemma WordReads(t: Json, rest: Text)
    requires t.Null? || t.Absent? || t.Bool?
    ensures ReadsValue(t, rest)
  {
  }

  lemma StringReads(s: Text, rest: Text)
    ensures ReadsValue(Str(s), rest)
  {
    QuoteRoundTrip(s, rest);
  }

  function ItemText(x: Json): Text
    requires Valid(x)
  {
    if x.Absent? then [] else ValueText(x)
  }

  lemma ItemReads(x: Json, rest: Text)
    requires Valid(x) && rest != [] && rest[0] in {COMMA, RBRACK}
    requires !x.Absent? ==> ReadsValue(x, rest)
    ensures ParseItem(ItemText(x) + rest) == Ok(x, rest)
  {
    if x.Absent? {
      assert ItemText(x) + rest == rest;
    } else {
      ValueStart(x);
    }
  }

  lemma ItemsMore(x: Json, text: Text, xs: seq<Json>, more: Text, rest: Text)
    requires ParseItem(text + ([COMMA] + more)) == Ok(x, [COMMA] + more)
    requires ParseItems(more) == Ok(xs, rest)
    ensures ParseItems(text + ([COMMA] + more)) == Ok([x] + xs, rest)
  {
  }

  lemma PropsMore(p: Entry<Json>, text: Text, ps: seq<Entry<Json>>, more: Text, rest: Text)
    requires ParseProp(text + ([COMMA] + more)) == Ok(p, [COMMA] + more)
    requires ParseProps(more) == Ok(ps, rest)
    ensures ParseProps(text + ([COMMA] + more)) == Ok([p] + ps, rest)
  {
  }

  lemma ParseKeyAndValue(key: Text, value: Text, v: Json, rest: Text)
    requires ParseValue(value) == Ok(v, rest)
    ensures ParseProp(Quote(key) + ([COLON] + value)) == Ok(Entry(key, v), rest)
  {
    QuoteRoundTrip(key, [COLON] + value);
    assert ([COLON] + value)[1..] == value;
  }

  lemma PropReads(key: Text, text: Text, v: Json, rest: Text)
    requires ParseValue(text + rest) == Ok(v, rest)
    ensures ParseProp(EntryText(Entry(key, text)) + rest) == Ok(Entry(key, v), rest)
  {
    ParseKeyAndValue(key, text + rest, v, rest);
    Regroup(Quote(key), [COLON], text, rest);
  }

  lemma Regroup(a: Text, b: Text, c: Text, d: Text)
    ensures a + b + c + d == a + (b + (c + d))
  {
  }

  lemma JoinMore(text: Text, texts: seq<Text>, end: Text)
    requires texts != []
    ensures Join([text] + texts) + end == text + ([COMMA] + (Join(texts) + end))
  {
  }

  predicate ReadsItems(items: seq<Json>, rest: Text)
    requires forall x :: x in items ==> Valid(x)
  {
    ParseItems(Join(ItemTexts(items)) + ([RBRACK] + rest)) == Ok(items, rest)
  }

  lemma ReadsOne(x: Json, rest: Text)
    requires Valid(x) && ParseItem(ItemText(x) + ([RBRACK] + rest)) == Ok(x, [RBRACK] + rest)
    ensures ReadsItems([x], rest)
  {
  }

  lemma ReadsMore(x: Json, xs: seq<Json>, rest: Text, more: Text)
    requires Valid(x) && xs != [] && forall y :: y in xs ==> Valid(y)
    requires more == Join(ItemTexts(xs)) + ([RBRACK] + rest)
    requires ParseItem(ItemText(x) + ([COMMA] + more)) == Ok(x, [COMMA] + more)
    requires ReadsItems(xs, rest)
    ensures ReadsItems([x] + xs, rest)
  {
    ItemsMore(x, ItemText(x), xs, more, rest);
    assert ([x] + xs)[1..] == xs;
    assert ItemTexts([x] + xs) == [ItemText(x)] + ItemTexts(xs);
    JoinMore(ItemText(x), ItemTexts(xs), [RBRACK] + rest);
  }

  lemma {:induction false} ItemsReads(items: seq<Json>, rest: Text)
    requires items != [] && forall x :: x in items ==> Normal(x) && Valid(x)
    ensures ReadsItems(items, rest)
    decreases items, 1
  {
    var x, xs := items[0], items[1..];
    if xs == [] {
      ItemValueReads(x, [RBRACK] + rest);
      ReadsOne(x, rest);
      assert items == [x];
    } else {
      var more := Join(ItemTexts(xs)) + ([RBRACK] + rest);
      ItemValueReads(x, [COMMA] + more);
      ItemsReads(xs, rest);
      ReadsMore(x, xs, rest, more);
      assert items == [x] + xs;
    }
  }

  lemma {:induction false} ItemValueReads(x: Json, rest: Text)
    requires Normal(x) && Valid(x) && rest != [] && rest[0] in {COMMA, RBRACK}
    ensures ParseItem(ItemText(x) + rest) == Ok(x, rest)
    decreases x, 3
  {
    ValueReads(x, rest);
    ItemReads(x, rest);
  }

  lemma EntryLinesStep(props: seq<Entry<Json>>)
    requires props != [] && forall p :: p in props ==> Valid(p.val)
    ensures EntryLines(EntryTexts(props)) ==
            [EntryText(Entry(props[0].key, ValueText(props[0].val)))] + EntryLines(EntryTexts(props[1..]))
  {
  }

  predicate ReadsProps(props: seq<Entry<Json>>, rest: Text)
    requires forall p :: p in props ==> Valid(p.val)
  {
    ParseProps(Join(EntryLines(EntryTexts(props))) + ([RBRACE] + rest)) == Ok(props, rest)
  }

  function PropText(p: Entry<Json>): Text
    requires Valid(p.val)
  {
    EntryText(Entry(p.key, ValueText(p.val)))
  }

  lemma ReadsOneProp(p: Entry<Json>, rest: Text)
    requires Valid(p.val) && ParseProp(PropText(p) + ([RBRACE] + rest)) == Ok(p, [RBRACE] + rest)
    ensures ReadsProps([p], rest)
  {
  }

  lemma ReadsMoreProps(p: Entry<Json>, ps: seq<Entry<Json>>, rest: Text, more: Text)
    requires Valid(p.val) && ps != [] && forall q :: q in ps ==> Valid(q.val)
    requires more == Join(EntryLines(EntryTexts(ps))) + ([RBRACE] + rest)
    requires ParseProp(PropText(p) + ([COMMA] + more)) == Ok(p, [COMMA] + more)
    requires ReadsProps(ps, rest)
    ensures ReadsProps([p] + ps, rest)
  {
    PropsMore(p, PropText(p), ps, more, rest);
    EntryLinesStep([p] + ps);
    assert ([p] + ps)[1..] == ps;
    JoinMore(PropText(p), EntryLines(EntryTexts(ps)), [RBRACE] + rest);
  }

  lemma {:induction false} PropsReads(props: seq<Entry<Json>>, rest: Text)
    requires props != [] && forall p :: p in props ==> Normal(p.val) && Valid(p.val)
    ensures ReadsProps(props, rest)
    decreases props, 1
  {
    var p, ps := props[0], props[1..];
    if ps == [] {
      ValueReads(p.val, [RBRACE] + rest);
      PropReads(p.key, ValueText(p.val), p.val, [RBRACE] + rest);
      ReadsOneProp(p, rest);
      assert props == [p];
    } else {
      var more := Join(EntryLines(EntryTexts(ps))) + ([RBRACE] + rest);
      ValueReads(p.val, [COMMA] + more);
      PropReads(p.key, ValueText(p.val), p.val, [COMMA] + more);
      PropsReads(ps, rest);
      ReadsMoreProps(p, ps, rest, more);
      HeadTail(props);
    }
  }

  /** Every normal value is read back from its text, whatever legal text follows. */
  lemma {:induction false} ValueReads(t: Json, rest: Text)
    requires Normal(t) && Valid(t) && Delimited(rest)
    ensures ReadsValue(t, rest)
    decreases t, 2
  {
    match t
    case Num(x) => NumberReads(x, rest);
    case Str(s) => StringReads(s, rest);
    case Arr(items) => ArrayReads(items, rest);
    case Obj(props) => ObjectReads(props, rest);
    case _ => WordReads(t, rest);
  }

  lemma {:induction false} ArrayReads(items: seq<Json>, rest: Text)
    requires Normal(Arr(items)) && Valid(Arr(items))
    ensures ReadsValue(Arr(items), rest)
    decreases items, 2
  {
    if items == [] {
      assert ValueText(Arr([])) == [LBRACK, RBRACK];
      assert ([LBRACK, RBRACK] + rest)[2..] == rest;
    } else {
      ItemsReads(items, rest);
      ArrayStart(items);
      ParseArray(Join(ItemTexts(items)), items, rest);
    }
  }

  lemma ParseArray(body: Text, items: seq<Json>, rest: Text)
    requires body != [] && body[0] != RBRACK
    requires ParseItems(body + ([RBRACK] + rest)) == Ok(items, rest)
    ensures ParseValue([LBRACK] + body + [RBRACK] + rest) == Ok(Arr(items), rest)
  {
    var s := [LBRACK] + body + [RBRACK] + rest;
    assert s[1..] == body + ([RBRACK] + rest);
    assert AfterBracket(s[1..]) == Ok(Arr(items), rest);
  }

  lemma ParseObject(body: Text, props: seq<Entry<Json>>, rest: Text)
    requires body != [] && body[0] != RBRACE
    requires ParseProps(body + ([RBRACE] + rest)) == Ok(props, rest)
    ensures ParseValue([LBRACE] + body + [RBRACE] + rest) == Ok(Obj(props), rest)
  {
    var s := [LBRACE] + body + [RBRACE] + rest;
    assert s[1..] == body + ([RBRACE] + rest);
    assert AfterBrace(s[1..]) == Ok(Obj(props), rest);
  }

  lemma ArrayStart(items: seq<Json>)
    requires items != [] && items != [Absent] && Valid(Arr(items))
    ensures Join(ItemTexts(items)) != [] && Join(ItemTexts(items))[0] != RBRACK
  {
    assert ItemTexts(items)[0] == ItemText(items[0]);
    if items[0].Absent? {
      assert |items| == 1 ==> items == [Absent];
    } else {
      ValueStart(items[0]);
    }
  }

  lemma {:induction false} ObjectReads(props: seq<Entry<Json>>, rest: Text)
    requires Normal(Obj(props)) && Valid(Obj(props))
    ensures ReadsValue(Obj(props), rest)
    decreases props, 2
  {
    var texts := EntryTexts(props);
    SortIdentity(texts);
    if props == [] {
      assert ValueText(Obj([])) == [LBRACE, RBRACE];
      assert ([LBRACE, RBRACE] + rest)[2..] == rest;
    } else {
      PropsReads(props, rest);
      EntryLinesStep(props);
      ParseObject(Join(EntryLines(texts)), props, rest);
    }
  }

  // ---- what the text determines ------------------------------------------

  lemma {:induction false} NormNormal(t: Json)
    requires Valid(t)
    ensures Normal(Norm(t)) && Valid(Norm(t))
    decreases t, 0
  {
    match t {
      case Arr(items) =>
        NormItemsNormal(items);
        NormAbsent(items);
      case Obj(props) =>
        NormPropsNormal(props);
        SortSorted(NormProps(props));
      case _ =>
    }
    NormalValid(Norm(t));
  }

  lemma {:induction false} NormItemsNormal(items: seq<Json>)
    requires forall x :: x in items ==> Valid(x)
    ensures forall x :: x in NormItems(items) ==> Normal(x)
    decreases items, 1
  {
    forall i | 0 <= i < |items| ensures Normal(NormItems(items)[i]) {
      NormNormal(items[i]);
    }
  }

  lemma {:induction false} NormPropsNormal(props: seq<Entry<Json>>)
    requires forall p :: p in props ==> Valid(p.val)
    ensures forall p :: p in NormProps(props) ==> Normal(p.val)
    decreases props, 1
  {
    forall i | 0 <= i < |props| ensures Normal(NormProps(props)[i].val) {
      NormNormal(props[i].val);
    }
  }

  lemma NormAbsent(items: seq<Json>)
    requires forall x :: x in items ==> Valid(x)
    ensures NormItems(items) == [Absent] <==> items == [Absent]
  {
  }

  /** Two property lists with the same members print alike, whatever their order. */
  lemma EntriesPrintAlike(es: seq<Entry<Text>>, fs: seq<Entry<Text>>)
    requires DistinctKeys(es) && DistinctKeys(fs)
    requires forall e :: e in es <==> e in fs
    ensures Sort(es) == Sort(fs)
  {
    SortSorted(es);
    SortSorted(fs);
    SortedUnique(Sort(es), Sort(fs));
  }

  /** Normalizing changes no text. */
  lemma {:induction false} NormPrints(t: Json)
    requires Valid(t)
    ensures Valid(Norm(t)) && Print(Norm(t)) == Print(t)
    decreases t, 0
  {
    NormNormal(t);
    match t
    case Arr(items) =>
      if items == [Absent] {
        assert ItemTexts(items) == [[]];
      } else {
        NormItemTexts(items);
      }
    case Obj(props) => NormObjectPrints(props);
    case _ =>
  }

  lemma {:induction false} NormItemTexts(items: seq<Json>)
    requires forall x :: x in items ==> Valid(x)
    ensures forall x :: x in NormItems(items) ==> Valid(x)
    ensures ItemTexts(NormItems(items)) == ItemTexts(items)
    decreases items, 1
  {
    if items != [] {
      NormPrints(items[0]);
      NormItemTexts(items[1..]);
      assert NormItems(items)[1..] == NormItems(items[1..]);
    }
  }

  lemma {:induction false} NormObjectPrints(props: seq<Entry<Json>>)
    requires Valid(Obj(props)) && Valid(Norm(Obj(props)))
    ensures Print(Norm(Obj(props))) == Print(Obj(props))
    decreases props, 1
  {
    var normed := NormProps(props);
    var sorted := Sort(normed);
    forall p | p in props ensures Valid(Norm(p.val)) && ValueText(Norm(p.val)) == ValueText(p.val) {
      NormPrints(p.val);
    }
    SameEntries(props, normed, sorted);
    EntriesPrintAlike(EntryTexts(sorted), EntryTexts(props));
  }

  lemma EntriesWithin(ps: seq<Entry<Json>>, qs: seq<Entry<Json>>)
    requires (forall p :: p in ps ==> Valid(p.val)) && (forall q :: q in qs ==> Valid(q.val))
    requires forall p :: p in ps ==> p in qs
    ensures forall e :: e in EntryTexts(ps) ==> e in EntryTexts(qs)
  {
    var es, fs := EntryTexts(ps), EntryTexts(qs);
    forall e | e in es ensures e in fs {
      var i :| 0 <= i < |es| && es[i] == e;
      assert ps[i] in qs;
      var j :| 0 <= j < |qs| && qs[j] == ps[i];
      assert fs[j] == e;
    }
  }

  lemma SameEntries(props: seq<Entry<Json>>, normed: seq<Entry<Json>>, sorted: seq<Entry<Json>>)
    requires Valid(Obj(props)) && Valid(Obj(sorted))
    requires |normed| == |props| && forall p :: p in sorted <==> p in normed
    requires forall i :: 0 <= i < |props| ==>
               && normed[i].key == props[i].key && Valid(normed[i].val)
               && ValueText(normed[i].val) == ValueText(props[i].val)
    ensures DistinctKeys(EntryTexts(sorted)) && DistinctKeys(EntryTexts(props))
    ensures forall e :: e in EntryTexts(sorted) <==> e in EntryTexts(props)
  {
    assert EntryTexts(normed) == EntryTexts(props);
    EntriesWithin(sorted, normed);
    EntriesWithin(normed, sorted);
  }

  /** The parser recovers every value, up to what Norm forgets, from its text and any legal rest. */
  lemma ParsePrint(t: Json, rest: Text)
    requires Valid(t) && Delimited(rest)
    ensures ParseValue(ValueText(t) + rest) == Ok(Norm(t), rest)
  {
    NormNormal(t);
    NormPrints(t);
    ValueReads(Norm(t), rest);
  }

  /** No text of a value is a proper prefix of another's, once a delimiter follows. */
  lemma PrefixFree(a: Json, b: Json, ra: Text, rb: Text)
    requires Valid(a) && Valid(b) && Delimited(ra) && Delimited(rb)
    requires ValueText(a) + ra == ValueText(b) + rb
    ensures Norm(a) == Norm(b) && ra == rb
  {
    ParsePrint(a, ra);
    ParsePrint(b, rb);
  }

  /** Two values print alike exactly when they have the same normal form. */
  lemma PrintInjective(a: Json, b: Json)
    requires Valid(a) && Valid(b)
    ensures Print(a) == Print(b) <==> Norm(a) == Norm(b)
  {
    NormPrints(a);
    NormPrints(b);
    if Print(a) == Print(b) {
      PrefixFree(a, b, [], []);
    }
  }

  // ---- the text by its code points ---------------------------------------

  /** No undefined anywhere. */
  predicate Defined(t: Json) {
    match t
    case Absent => false
    case Arr(items) => forall x :: x in items ==> Defined(x)
    case Obj(props) => forall p :: p in props ==> Defined(p.val)
    case _ => true
  }

  lemma {:induction false} NormDefined(t: Json)
    requires Valid(t) && Defined(t)
    ensures Defined(Norm(t))
  {
    match t
    case Arr(items) =>
      forall i | 0 <= i < |items| ensures Defined(NormItems(items)[i]) {
        NormDefined(items[i]);
      }
    case Obj(props) =>
      forall i | 0 <= i < |props| ensures Defined(NormProps(props)[i].val) {
        NormDefined(props[i].val);
      }
    case _ =>
  }

  /** Two elements print between brackets with a comma between them. */
  lemma PairPrints(x: Json, y: Json)
    requires Valid(x) && Valid(y) && !x.Absent? && !y.Absent?
    ensures Print(Arr([x, y])) == Some([91] + (ValueText(x) + [44] + ValueText(y)) + [93])
  {
    var texts := [ValueText(x), ValueText(y)];
    assert [x, y][1..] == [y] && texts[1..] == [ValueText(y)];
    assert ItemTexts([x, y]) == texts;
    assert Join(texts) == ValueText(x) + [44] + ValueText(y);
  }

  /** Two properties print between braces, by key, each key quoted and before a colon. */
  lemma TwoPropsPrint(p: Entry<Json>, q: Entry<Json>)
    requires Valid(Obj([p, q])) && Valid(Obj([q, p])) && Less(p.key, q.key)
    ensures Print(Obj([p, q])) == Print(Obj([q, p])) == Some(
              [123] + ((Quote(p.key) + [58] + ValueText(p.val)) + [44] +
                       (Quote(q.key) + [58] + ValueText(q.val))) + [125])
  {
    var e, f := Entry(p.key, ValueText(p.val)), Entry(q.key, ValueText(q.val));
    LessTotal(p.key, q.key);
    assert [p, q][1..] == [q] && [q, p][1..] == [p] && [e, f][1..] == [f] && [f, e][1..] == [e];
    assert EntryTexts([p, q]) == [e, f] && EntryTexts([q, p]) == [f, e];
    assert Sort([e]) == [e] && Sort([f]) == [f];
    assert Insert(f, [e]) == [e] + Insert(f, [e][1..]);
    assert Sort([e, f]) == [e, f] && Sort([f, e]) == [e, f];
    assert EntryLines([e, f]) == [EntryText(e), EntryText(f)];
    assert [EntryText(e), EntryText(f)][1..] == [EntryText(f)];
    assert Join([EntryText(e), EntryText(f)]) == EntryText(e) + [44] + EntryText(f);
  }

  /** A string is between quotes, and each kind of unit is spelled as JSON.stringify spells it. */
  lemma EscapesExactly(u: Unit)
    ensures EscapeUnit(u) == [u] <==> u >= 32 && u != 34 && u != 92 && !(0xD800 <= u <= 0xDFFF)
    ensures EscapeUnit(8) == [92, 98] && EscapeUnit(9) == [92, 116] && EscapeUnit(10) == [92, 110]
    ensures EscapeUnit(12) == [92, 102] && EscapeUnit(13) == [92, 114]
    ensures EscapeUnit(34) == [92, 34] && EscapeUnit(92) == [92, 92]
    ensures u !in {8, 9, 10, 12, 13, 34, 92} && (u < 32 || 0xD800 <= u <= 0xDFFF) ==>
              && |EscapeUnit(u)| == 6 && EscapeUnit(u)[..2] == [92, 117]
              && forall i :: 2 <= i < 6 ==> 48 <= EscapeUnit(u)[i] <= 57 || 97 <= EscapeUnit(u)[i] <= 102
  {
  }

  /** The key order, unit by unit: a proper prefix, or a smaller unit at the first difference. */
  lemma {:induction false} LessMeans(a: Text, b: Text)
    ensures Less(a, b) <==> (a <= b && a != b) || DiffersBelow(a, b)
  {
    if a != [] && b != [] {
      LessMeans(a[1..], b[1..]);
      if a[0] == b[0] {
        DiffersLater(a, b);
        assert a == [a[0]] + a[1..] && b == [b[0]] + b[1..];
      } else if a[0] < b[0] {
        assert a[..0] == b[..0];
      }
    }
  }

  predicate DiffersBelow(a: Text, b: Text) {
    exists i :: 0 <= i < |a| && i < |b| && a[..i] == b[..i] && a[i] < b[i]
  }

  lemma DiffersLater(a: Text, b: Text)
    requires a != [] && b != [] && a[0] == b[0]
    ensures DiffersBelow(a, b) <==> DiffersBelow(a[1..], b[1..])
  {
    if DiffersBelow(a, b) {
      var i :| 0 <= i < |a| && i < |b| && a[..i] == b[..i] && a[i] < b[i];
      assert a[1..][..i - 1] == a[..i][1..] && b[1..][..i - 1] == b[..i][1..];
      assert a[1..][i - 1] < b[1..][i - 1];
    }
    if DiffersBelow(a[1..], b[1..]) {
      var i :| 0 <= i < |a[1..]| && i < |b[1..]| && a[1..][..i] == b[1..][..i] && a[1..][i] < b[1..][i];
      assert a[..i + 1] == [a[0]] + a[1..][..i] && b[..i + 1] == [b[0]] + b[1..][..i];
      assert a[i + 1] < b[i + 1];
    }
  }

  /** What is printed is JSON, by a reader that knows only RFC 8259, and says what was printed. */
  lemma PrintsJson(t: Json)
    requires Valid(t) && Defined(t)
    ensures var read := ParseValue(ValueText(t)); read.Ok? && read.rest == [] && Defined(read.val) && Alike(read.val, t)
  {
    NormNormal(t);
    NormPrints(t);
    NormDefined(t);
    PrintsAlike(Norm(t), t);
    ParsePrint(t, []);
    assert ValueText(t) + [] == ValueText(t);
  }

  // ---- equality up to key order, said directly ---------------------------

  function Elide(items: seq<Json>): seq<Json> {
    if items == [Absent] then [] else items
  }

  /** Equal values, where property order, NaN against null, and the sign of zero do not matter. */
  predicate Alike(a: Json, b: Json)
    decreases a
  {
    match a
    case Null => IsNull(b)
    case Num(x) =>
      if x.NonFinite? then IsNull(b)
      else b.Num? && (x == b.num || (IsZero(x) && IsZero(b.num)))
    case Arr(items) =>
      && b.Arr? && |Elide(items)| == |Elide(b.items)|
      && forall i :: 0 <= i < |Elide(items)| ==> Alike(items[i], b.items[i])
    case Obj(props) =>
      && b.Obj? && |props| == |b.props|
      && forall i :: 0 <= i < |props| ==> HasAlike(props[i], b.props)
    case _ => a == b
  }

  predicate HasAlike(p: Entry<Json>, qs: seq<Entry<Json>>)
    decreases p
  {
    exists j :: 0 <= j < |qs| && p.key == qs[j].key && Alike(p.val, qs[j].val)
  }

  predicate IsNull(t: Json) { t.Null? || (t.Num? && t.num.NonFinite?) }

  predicate IsZero(x: NumberText.Number) { x.Zero? || x.NegZero? }

  lemma {:induction false} AlikeNorm(a: Json, b: Json)
    requires Valid(a) && Valid(b)
    ensures Alike(a, b) <==> Norm(a) == Norm(b)
    decreases a, 0
  {
    if a.Arr? && b.Arr? {
      AlikeItems(a.items, b.items);
    } else if a.Obj? && b.Obj? {
      AlikeProps(a.props, b.props);
    }
  }

  lemma {:induction false} AlikeItems(xs: seq<Json>, ys: seq<Json>)
    requires Valid(Arr(xs)) && Valid(Arr(ys))
    ensures Alike(Arr(xs), Arr(ys)) <==> Norm(Arr(xs)) == Norm(Arr(ys))
    decreases xs, 1
  {
    NormAbsent(xs);
    NormAbsent(ys);
    if |Elide(xs)| == |Elide(ys)| && Elide(xs) != [] {
      assert Elide(xs) == xs && Elide(ys) == ys;
      forall i | 0 <= i < |xs| ensures Alike(xs[i], ys[i]) <==> NormItems(xs)[i] == NormItems(ys)[i] {
        AlikeNorm(xs[i], ys[i]);
      }
    }
  }

  lemma {:induction false} AlikeProps(ps: seq<Entry<Json>>, qs: seq<Entry<Json>>)
    requires Valid(Obj(ps)) && Valid(Obj(qs))
    ensures Alike(Obj(ps), Obj(qs)) <==> Norm(Obj(ps)) == Norm(Obj(qs))
    decreases ps, 1
  {
    var np, nq := NormProps(ps), NormProps(qs);
    forall i, j | 0 <= i < |ps| && 0 <= j < |qs|
      ensures np[i] == nq[j] <==> ps[i].key == qs[j].key && Alike(ps[i].val, qs[j].val)
    {
      AlikeNorm(ps[i].val, qs[j].val);
    }
    SameMembers(np, nq);
    assert Alike(Obj(ps), Obj(qs)) <==> |np| == |nq| && forall i :: 0 <= i < |np| ==> np[i] in nq by {
      AlikeMembers(ps, qs, np, nq);
    }
  }

  lemma AlikeMembers(ps: seq<Entry<Json>>, qs: seq<Entry<Json>>, np: seq<Entry<Json>>, nq: seq<Entry<Json>>)
    requires |np| == |ps| && |nq| == |qs|
    requires forall i, j :: 0 <= i < |ps| && 0 <= j < |qs| ==>
               (np[i] == nq[j] <==> ps[i].key == qs[j].key && Alike(ps[i].val, qs[j].val))
    ensures Alike(Obj(ps), Obj(qs)) <==> |np| == |nq| && forall i :: 0 <= i < |np| ==> np[i] in nq
  {
    forall i | 0 <= i < |ps| ensures np[i] in nq <==> HasAlike(ps[i], qs) {
      if np[i] in nq {
        var j :| 0 <= j < |nq| && nq[j] == np[i];
        assert ps[i].key == qs[j].key;
      }
      if HasAlike(ps[i], qs) {
        var j :| 0 <= j < |qs| && ps[i].key == qs[j].key && Alike(ps[i].val, qs[j].val);
        assert np[i] == nq[j];
      }
    }
  }

  lemma SameMembers<V(!new)>(ps: seq<Entry<V>>, qs: seq<Entry<V>>)
    requires DistinctKeys(ps) && DistinctKeys(qs)
    ensures Sort(ps) == Sort(qs) <==> |ps| == |qs| && forall i :: 0 <= i < |ps| ==> ps[i] in qs
  {
    if Sort(ps) == Sort(qs) {
      assert |Sort(ps)| == |Sort(qs)|;
      forall i | 0 <= i < |ps| ensures ps[i] in qs {
        assert ps[i] in Sort(qs);
      }
    }
    if |ps| == |qs| && forall i :: 0 <= i < |ps| ==> ps[i] in qs {
      SubsetSameSize(ps, qs);
      SortSorted(ps);
      SortSorted(qs);
      SortedUnique(Sort(ps), Sort(qs));
    }
  }

  /** A list without repeated keys, contained in another no longer, has all its members. */
  lemma {:induction false} SubsetSameSize<V(!new)>(ps: seq<Entry<V>>, qs: seq<Entry<V>>)
    requires DistinctKeys(ps) && |ps| == |qs|
    requires forall p :: p in ps ==> p in qs
    ensures forall q :: q in qs ==> q in ps
  {
    if ps != [] {
      assert ps[0] in qs;
      var j :| 0 <= j < |qs| && qs[j] == ps[0];
      var fewer := qs[..j] + qs[j + 1..];
      forall p | p in ps[1..] ensures p in fewer {
        assert p in qs;
        var k :| 0 <= k < |qs| && qs[k] == p;
        assert k != j;
        assert qs[k] == if k < j then fewer[k] else fewer[k - 1];
      }
      SubsetSameSize(ps[1..], fewer);
      forall q | q in qs ensures q in ps {
        assert q in fewer || q == qs[j];
      }
    }
  }

  /** The printer identifies exactly the values that are equal up to key order, NaN, -0 and [undefined]. */
  lemma PrintsAlike(a: Json, b: Json)
    requires Valid(a) && Valid(b)
    ensures Print(a) == Print(b) <==> Alike(a, b)
  {
    PrintInjective(a, b);
    AlikeNorm(a, b);
  }

  // ---- the text is always well-formed UTF-16 -----------------------------

  lemma {:induction false} EscapeWellFormed(s: Text)
    ensures WellFormed(Escape(s))
  {
    if s != [] {
      EscapeWellFormed(s[HeadWidth(s)..]);
      assert WellFormed(EscapeHead(s)) by {
        if StartsWithPair(s) {
          assert s[..2][2..] == [];
        } else {
          WellFormedPlain(EscapeHead(s));
        }
      }
      WellFormedConcat(EscapeHead(s), Escape(s[HeadWidth(s)..]));
    }
  }

  lemma QuoteWellFormed(s: Text)
    ensures WellFormed(Quote(s))
  {
    EscapeWellFormed(s);
    WellFormedPlain([QUOTE]);
    WellFormedConcat([QUOTE], Escape(s));
    WellFormedConcat([QUOTE] + Escape(s), [QUOTE]);
  }

  lemma {:induction false} JoinWellFormed(parts: seq<Text>)
    requires forall p :: p in parts ==> WellFormed(p)
    ensures WellFormed(Join(parts))
  {
    if |parts| > 1 {
      JoinWellFormed(parts[1..]);
      WellFormedPlain([COMMA]);
      WellFormedConcat(parts[0], [COMMA]);
      WellFormedConcat(parts[0] + [COMMA], Join(parts[1..]));
    }
  }

  lemma BracketsWellFormed(open: Unit, body: Text, close: Unit)
    requires WellFormed(body) && !IsSurrogate(open) && !IsSurrogate(close)
    ensures WellFormed([open] + body + [close])
  {
    WellFormedPlain([open]);
    WellFormedPlain([close]);
    WellFormedConcat([open], body);
    WellFormedConcat([open] + body, [close]);
  }

  /** Whatever strings a value holds, its text has no lone surrogate, so UTF-8 loses nothing of it. */
  lemma {:induction false} PrintWellFormed(t: Json)
    requires Valid(t)
    ensures WellFormed(ValueText(t))
    decreases t, 0
  {
    match t
    case Str(s) => QuoteWellFormed(s);
    case Arr(items) =>
      ItemsWellFormed(items);
      JoinWellFormed(ItemTexts(items));
      BracketsWellFormed(LBRACK, Join(ItemTexts(items)), RBRACK);
    case Obj(props) =>
      PropsWellFormed(props);
      var lines := EntryLines(Sort(EntryTexts(props)));
      LinesWellFormed(Sort(EntryTexts(props)));
      JoinWellFormed(lines);
      BracketsWellFormed(LBRACE, Join(lines), RBRACE);
    case _ => WordWellFormed(t);
  }

  lemma WordWellFormed(t: Json)
    requires Valid(t) && (t.Null? || t.Absent? || t.Bool? || t.Num?)
    ensures WellFormed(ValueText(t))
  {
    if t.Num? && !t.num.NonFinite? {
      NumberText.PrintShape(t.num);
      assert ValueText(t) == NumberText.Print(t.num);
    } else {
      assert ValueText(t) in {NULL_TEXT, TRUE_TEXT, FALSE_TEXT, UNDEFINED_TEXT};
    }
    WellFormedPlain(ValueText(t));
  }

  lemma {:induction false} ItemsWellFormed(items: seq<Json>)
    requires forall x :: x in items ==> Valid(x)
    ensures forall p :: p in ItemTexts(items) ==> WellFormed(p)
    decreases items, 1
  {
    if items != [] {
      PrintWellFormed(items[0]);
      ItemsWellFormed(items[1..]);
    }
  }

  lemma {:induction false} PropsWellFormed(props: seq<Entry<Json>>)
    requires forall p :: p in props ==> Valid(p.val)
    ensures forall e :: e in EntryTexts(props) ==> WellFormed(e.val)
    decreases props, 1
  {
    forall i | 0 <= i < |props| ensures WellFormed(EntryTexts(props)[i].val) {
      PrintWellFormed(props[i].val);
    }
  }

  lemma {:induction false} LinesWellFormed(es: seq<Entry<Text>>)
    requires forall e :: e in es ==> WellFormed(e.val)
    ensures forall p :: p in EntryLines(es) ==> WellFormed(p)
  {
    if es != [] {
      LinesWellFormed(es[1..]);
      var e := es[0];
      QuoteWellFormed(e.key);
      WellFormedPlain([COLON]);
      WellFormedConcat(Quote(e.key), [COLON]);
      WellFormedConcat(Quote(e.key) + [COLON], e.val);
    }
  }
}
