/**
 * Every way to write a JSON text (RFC 8259), and that the reader reads it: characters plain or escaped,
 * numbers, literals, arrays and objects of any depth, with any white space between the tokens.
 */
module JsonText {
  import opened Types
  import opened Json

  // ---- characters ----

  /** How a character is written: as itself, with a one-letter escape, or by its UTF-16 units. */
  datatype Form = Plain | Short | Units(upper: bool)

  const HEX_LOWER := "0123456789abcdef"
  const HEX_UPPER := "0123456789ABCDEF"

  function Hex(d: nat, upper: bool): char
    requires d < 16
  {
    if upper then HEX_UPPER[d] else HEX_LOWER[d]
  }

  /** The k-th hexadecimal digit from the right. */
  function Nibble(n: nat, k: nat): (d: nat)
    ensures d < 16
  {
    if k == 0 then n % 16 else Nibble(n / 16, k - 1)
  }

  /** The four digits of a unit. */
  function Four(n: nat, upper: bool): (s: string)
    requires n < 0x10000
    ensures |s| == 4
  {
    [Hex(Nibble(n, 3), upper), Hex(Nibble(n, 2), upper), Hex(Nibble(n, 1), upper), Hex(Nibble(n, 0), upper)]
  }

  /** The escape of one unit, before `rest`. */
  function Unit(n: nat, upper: bool, rest: string): string
    requires n < 0x10000
  {
    "\\u" + (Four(n, upper) + rest)
  }

  /** The units of a surrogate pair. */
  function High(n: nat): (high: nat)
    requires 0x10000 <= n < 0x110000
    ensures 0xD800 <= high < 0xDC00
  {
    0xD800 + (n - 0x10000) / 0x400
  }

  function Low(n: nat): (low: nat)
    requires 0x10000 <= n < 0x110000
    ensures 0xDC00 <= low < 0xE000
    ensures n == 0x10000 + (High(n) - 0xD800) * 0x400 + (low - 0xDC00)
  {
    0xDC00 + (n - 0x10000) % 0x400
  }

  /** The letter of the short escapes, for the characters that have one. */
  function ShortLetter(c: char): Option<char> {
    if c == '"' then Some('"')
    else if c == '\\' then Some('\\')
    else if c == '/' then Some('/')
    else if c as int == 8 then Some('b')
    else if c as int == 9 then Some('t')
    else if c as int == 10 then Some('n')
    else if c as int == 12 then Some('f')
    else if c as int == 13 then Some('r')
    else None
  }

  predicate CanWrite(c: char, form: Form) {
    match form
    case Plain => c != '"' && c != '\\' && c as int >= 32
    case Short => ShortLetter(c).Some?
    case Units(_) => true
  }

  function Write(c: char, form: Form, rest: string): string
    requires CanWrite(c, form)
  {
    match form
    case Plain => [c] + rest
    case Short => ['\\', ShortLetter(c).value] + rest
    case Units(upper) =>
      var n := c as int;
      if n < 0x10000 then Unit(n, upper, rest)
      else Unit(High(n), upper, Unit(Low(n), upper, rest))
  }

  lemma HexReads(d: nat, upper: bool)
    requires d < 16
    ensures HexDigit(Hex(d, upper)) == Some(d)
  {
    if d < 10 {
      assert Hex(d, upper) == "0123456789"[d];
    } else {
      assert Hex(d, upper) == if upper then "ABCDEF"[d - 10] else "abcdef"[d - 10];
    }
  }

  lemma Hex4Reads(a: nat, b: nat, c: nat, d: nat, upper: bool, rest: string)
    requires a < 16 && b < 16 && c < 16 && d < 16
    ensures Hex4([Hex(a, upper), Hex(b, upper), Hex(c, upper), Hex(d, upper)] + rest) == Some(a * 4096 + b * 256 + c * 16 + d)
  {
    hide Hex, HexDigit;
    HexReads(a, upper);
    HexReads(b, upper);
    HexReads(c, upper);
    HexReads(d, upper);
  }

  lemma HexDigits(n: nat)
    requires n < 0x10000
    ensures n == Nibble(n, 3) * 4096 + Nibble(n, 2) * 256 + Nibble(n, 1) * 16 + Nibble(n, 0)
  {
    var a, b, c := n / 16, n / 16 / 16, n / 16 / 16 / 16;
    assert n == a * 16 + n % 16 && a == b * 16 + a % 16 && b == c * 16 + b % 16 && c < 16;
    assert Nibble(n, 1) == Nibble(a, 0) == a % 16;
    assert Nibble(n, 2) == Nibble(a, 1) == Nibble(b, 0) == b % 16;
    assert Nibble(n, 3) == Nibble(a, 2) == Nibble(b, 1) == Nibble(c, 0) == c;
  }

  lemma FourReads(n: nat, upper: bool, rest: string)
    requires n < 0x10000
    ensures Hex4(Four(n, upper) + rest) == Some(n)
  {
    hide Nibble, Hex, Hex4;
    HexDigits(n);
    Hex4Reads(Nibble(n, 3), Nibble(n, 2), Nibble(n, 1), Nibble(n, 0), upper, rest);
  }

  lemma UnitReads(n: nat, upper: bool, rest: string)
    requires n < 0x10000
    ensures var s := Unit(n, upper, rest);
      |s| >= 6 && s[0] == '\\' && s[1] == 'u' && Hex4(s[2..]) == Some(n) && s[6..] == rest
  {
    FourReads(n, upper, rest);
    hide Four, Hex4;
    var tail := Four(n, upper) + rest;
    assert tail[4..] == rest;
    assert Unit(n, upper, rest)[2..] == tail && Unit(n, upper, rest)[6..] == tail[4..];
  }

  /** A character in any of its forms reads as itself. */
  lemma WrittenReads(c: char, form: Form, rest: string)
    requires CanWrite(c, form)
    ensures ReadRest(Write(c, form, rest)) == Prepend(c, ReadRest(rest))
  {
    var s := Write(c, form, rest);
    if form.Plain? {
      assert s[1..] == rest;
    } else if form.Short? {
      assert s[1..][1..] == rest;
    } else {
      EscapedReads(c, form.upper, rest);
    }
  }

  lemma EscapedReads(c: char, upper: bool, rest: string)
    ensures ReadRest(Write(c, Units(upper), rest)) == Prepend(c, ReadRest(rest))
  {
    if c as int < 0x10000 {
      UnitIsRead(c, upper, rest);
    } else {
      PairIsRead(c, upper, rest);
    }
    hide Unit, ReadUnit, ReadRest, High, Low;
    EscapeIsRead(Write(c, Units(upper), rest), c, rest);
  }

  lemma EscapeIsRead(s: string, c: char, rest: string)
    requires |s| >= 2 && s[0] == '\\' && s[1] == 'u' && ReadUnit(s[1..]) == Some((c, rest))
    ensures ReadRest(s) == Prepend(c, ReadRest(rest))
  {
    hide ReadUnit;
  }

  /** What is read after the backslash of a single unit. */
  lemma UnitIsRead(c: char, upper: bool, rest: string)
    requires c as int < 0x10000
    ensures var s := Unit(c as int, upper, rest);
      |s| >= 2 && s[0] == '\\' && s[1] == 'u' && ReadUnit(s[1..]) == Some((c, rest))
  {
    var s := Unit(c as int, upper, rest);
    UnitReads(c as int, upper, rest);
    hide Hex4, Unit;
    assert s[1..][1..] == s[2..] && s[1..][5..] == s[6..];
  }

  /** The two units of a character beyond the first plane. */
  lemma PairIsRead(c: char, upper: bool, rest: string)
    requires c as int >= 0x10000
    ensures var s := Write(c, Units(upper), rest);
      |s| >= 2 && s[0] == '\\' && s[1] == 'u' && ReadUnit(s[1..]) == Some((c, rest))
  {
    var high, low := High(c as int), Low(c as int);
    var second := Unit(low, upper, rest);
    var s := Unit(high, upper, second);
    UnitReads(high, upper, second);
    UnitReads(low, upper, rest);
    hide Hex4, Unit, High, Low, ReadUnit;
    assert s[1..][1..] == s[2..] && s[1..][5..] == s[6..];
    PairReads(s[1..], second, rest, c);
  }

  lemma PairReads(s: string, second: string, rest: string, c: char)
    requires 0x10000 <= c as int
    requires |s| >= 5 && Hex4(s[1..]) == Some(High(c as int)) && s[5..] == second
    requires |second| >= 6 && second[0] == '\\' && second[1] == 'u'
    requires Hex4(second[2..]) == Some(Low(c as int)) && second[6..] == rest
    ensures ReadUnit(s) == Some((c, rest))
  {
    hide Hex4, High, Low, Left;
  }

  // ---- strings ----

  /** A text with the form each of its characters is written in. */
  type Written = seq<(char, Form)>

  predicate CanSpell(w: Written) {
    forall i | 0 <= i < |w| :: CanWrite(w[i].0, w[i].1)
  }

  function Chars(w: Written): string {
    seq(|w|, i requires 0 <= i < |w| => w[i].0)
  }

  /** The text after its opening quote. */
  function Spell(w: Written, rest: string): string
    requires CanSpell(w)
  {
    if w == [] then "\"" + rest else Write(w[0].0, w[0].1, Spell(w[1..], rest))
  }

  lemma {:induction false} SpelledReads(w: Written, rest: string)
    requires CanSpell(w)
    ensures ReadRest(Spell(w, rest)) == Some((Chars(w), rest))
    decreases |w|
  {
    if w == [] {
      var s := "\"" + rest;
      assert s[0] == '"' && s[1..] == rest && Chars(w) == "";
    } else {
      SpelledReads(w[1..], rest);
      WrittenReads(w[0].0, w[0].1, Spell(w[1..], rest));
      assert [w[0].0] + Chars(w[1..]) == Chars(w);
    }
  }

  // ---- numbers ----

  predicate Digits(s: string) {
    forall i | 0 <= i < |s| :: '0' <= s[i] <= '9'
  }

  datatype Exponent = NoExponent | Exponent(mark: char, sign: string, digits: string)

  datatype Number = Number(minus: bool, whole: string, fraction: string, exponent: Exponent)

  /** Section 6: no leading zero, digits after a point and after an exponent mark. */
  predicate IsNumber(n: Number) {
    && n.whole != "" && Digits(n.whole) && (n.whole[0] == '0' ==> n.whole == "0")
    && Digits(n.fraction)
    && (n.exponent.Exponent? ==>
          && (n.exponent.mark == 'e' || n.exponent.mark == 'E')
          && (n.exponent.sign == "" || n.exponent.sign == "+" || n.exponent.sign == "-")
          && n.exponent.digits != "" && Digits(n.exponent.digits))
  }

  function ExponentText(e: Exponent, rest: string): string {
    if e.NoExponent? then rest else [e.mark] + (e.sign + (e.digits + rest))
  }

  function FractionText(n: Number, rest: string): string {
    var after := ExponentText(n.exponent, rest);
    if n.fraction == "" then after else "." + (n.fraction + after)
  }

  function NumberText(n: Number, rest: string): string {
    (if n.minus then "-" else "") + (n.whole + FractionText(n, rest))
  }

  /** What follows cannot be taken for more of a number. */
  predicate Ends(rest: string) {
    rest == "" || !(('0' <= rest[0] <= '9') || rest[0] in ".eE+-")
  }

  lemma {:induction false} DigitsSkip(d: string, rest: string)
    requires d != "" && Digits(d) && (rest == "" || !('0' <= rest[0] <= '9'))
    ensures SkipDigits(d + rest) == Some(rest)
    decreases |d|
  {
    var s := d + rest;
    assert s[0] == d[0] && s[1..] == d[1..] + rest;
    if |d| == 1 {
      assert s[1..] == rest;
    } else {
      DigitsSkip(d[1..], rest);
    }
  }

  lemma ExponentSkips(n: Number, rest: string)
    requires IsNumber(n) && Ends(rest)
    ensures SkipExponent(ExponentText(n.exponent, rest)) == Some(rest)
  {
    var e := n.exponent;
    if e.Exponent? {
      var s, body := ExponentText(e, rest), e.digits + rest;
      assert s[0] == e.mark && s[1..] == e.sign + body;
      DigitsSkip(e.digits, rest);
      if e.sign == "" {
        assert s[1..] == body && body[0] == e.digits[0];
      } else {
        assert s[1..][0] == e.sign[0] && s[1..][1..] == body;
      }
    }
  }

  lemma FractionSkips(n: Number, rest: string)
    requires IsNumber(n) && Ends(rest)
    ensures SkipFraction(FractionText(n, rest)) == Some(ExponentText(n.exponent, rest))
  {
    var after := ExponentText(n.exponent, rest);
    if n.fraction != "" {
      assert FractionText(n, rest)[1..] == n.fraction + after;
      DigitsSkip(n.fraction, after);
    }
  }

  lemma {:induction false} PartsEndDigits(n: Number, rest: string)
    requires IsNumber(n) && Ends(rest)
    ensures var after := FractionText(n, rest); after == "" || !('0' <= after[0] <= '9')
  {
  }

  lemma NumberSkips(n: Number, rest: string)
    requires IsNumber(n) && Ends(rest)
    ensures SkipNumber(NumberText(n, rest)) == Some(rest)
    ensures NumberText(n, rest) != "" && (NumberText(n, rest)[0] == '-' || '0' <= NumberText(n, rest)[0] <= '9')
  {
    PartsEndDigits(n, rest);
    FractionSkips(n, rest);
    ExponentSkips(n, rest);
    var after := FractionText(n, rest);
    WholeSkips(n.whole, after);
    PartsSkip(n.whole + after, after, ExponentText(n.exponent, rest), rest);
    hide FractionText, ExponentText, SkipNumber;
    assert "" + (n.whole + after) == n.whole + after;
  }

  /** A number is its whole part, its fraction and its exponent, with a minus sign or without. */
  lemma PartsSkip(t: string, after: string, exponent: string, rest: string)
    requires t != "" && t[0] != '-' && (if t[0] == '0' then Some(t[1..]) else SkipDigits(t)) == Some(after)
    requires SkipFraction(after) == Some(exponent) && SkipExponent(exponent) == Some(rest)
    ensures SkipNumber(t) == Some(rest) && SkipNumber("-" + t) == Some(rest)
  {
    hide SkipDigits, SkipFraction, SkipExponent;
    assert ("-" + t)[1..] == t;
  }

  lemma WholeSkips(whole: string, after: string)
    requires whole != "" && Digits(whole) && (whole[0] == '0' ==> whole == "0")
    requires after == "" || !('0' <= after[0] <= '9')
    ensures var t := whole + after; (if t[0] == '0' then Some(t[1..]) else SkipDigits(t)) == Some(after)
  {
    if whole[0] == '0' {
      assert (whole + after)[1..] == after;
    } else {
      DigitsSkip(whole, after);
    }
  }

  // ---- values ----

  datatype Value =
    | Null
    | Bool(truth: bool)
    | Num(number: Number)
    | Str(text: Written)
    | Arr(items: seq<Value>)
    | Obj(members: seq<Member>)

  datatype Member = Member(name: Written, value: Value)

  predicate Valid(v: Value) {
    match v
    case Num(n) => IsNumber(n)
    case Str(w) => CanSpell(w)
    case Arr(items) => AllValid(items)
    case Obj(members) => AllMembersValid(members)
    case _ => true
  }

  predicate AllValid(items: seq<Value>) {
    items == [] || (Valid(items[0]) && AllValid(items[1..]))
  }

  predicate AllMembersValid(members: seq<Member>) {
    members == [] || (CanSpell(members[0].name) && Valid(members[0].value) && AllMembersValid(members[1..]))
  }

  /** White space, as much as one likes. */
  predicate Blank(ws: string) {
    forall i | 0 <= i < |ws| :: ws[i] as int == 32 || ws[i] as int == 9 || ws[i] as int == 10 || ws[i] as int == 13
  }

  /** The text of a value, with `ws` wherever white space may stand, before `rest`. */
  function Text(v: Value, ws: string, rest: string): string
    requires Valid(v)
    decreases v, 1
  {
    match v
    case Null => "null" + rest
    case Bool(truth) => (if truth then "true" else "false") + rest
    case Num(n) => NumberText(n, rest)
    case Str(w) => "\"" + Spell(w, rest)
    case Arr(items) => "[" + (ws + Items(items, ws, rest))
    case Obj(members) => "{" + (ws + Fields(members, ws, rest))
  }

  function Items(items: seq<Value>, ws: string, rest: string): string
    requires AllValid(items)
    decreases items, 0
  {
    if items == [] then "]" + rest
    else Text(items[0], ws, ws + (if |items| == 1 then "]" + rest else "," + (ws + Items(items[1..], ws, rest))))
  }

  function Fields(members: seq<Member>, ws: string, rest: string): string
    requires AllMembersValid(members)
    decreases members, 0
  {
    if members == [] then "}" + rest
    else
      var m := members[0];
      var after := ws + (if |members| == 1 then "}" + rest else "," + (ws + Fields(members[1..], ws, rest)));
      "\"" + Spell(m.name, ws + (":" + (ws + Text(m.value, ws, after))))
  }

  /** What the reader keeps of a value, and of an object: the last text under each name. */
  function Kept(v: Value): Option<string> {
    if v.Str? then Some(Chars(v.text)) else None
  }

  function SignalsOf(members: seq<Member>, sofar: Signals): Signals {
    if members == [] then sofar else SignalsOf(members[1..], sofar[Chars(members[0].name) := Kept(members[0].value)])
  }

  // ---- the reader reads them ----

  lemma {:induction false} BlankSkips(ws: string, s: string)
    requires Blank(ws) && (s == "" || !IsSpace(s[0]))
    ensures SkipSpace(ws + s) == s
    decreases |ws|
  {
    if ws == "" {
      assert ws + s == s;
    } else {
      assert (ws + s)[0] == ws[0] && (ws + s)[1..] == ws[1..] + s;
      BlankSkips(ws[1..], s);
    }
  }

  lemma BlankEnds(ws: string, s: string)
    requires Blank(ws) && s != "" && s[0] in ",]}"
    ensures Ends(ws + s)
  {
    assert (ws + s)[0] == if ws == "" then s[0] else ws[0];
  }

  lemma {:induction false} WordSkips(word: string, rest: string)
    ensures SkipWord(word + rest, word) == Some(rest)
    decreases |word|
  {
    if word == "" {
      assert word + rest == rest;
    } else {
      assert (word + rest)[0] == word[0] && (word + rest)[1..] == word[1..] + rest;
      WordSkips(word[1..], rest);
    }
  }

  /** A value's text begins with neither white space nor a closing bracket. */
  lemma TextStarts(v: Value, ws: string, rest: string)
    requires Valid(v)
    ensures Text(v, ws, rest) != "" && !IsSpace(Text(v, ws, rest)[0]) && Text(v, ws, rest)[0] != ']'
  {
    if v.Num? {
      var n := v.number;
      assert NumberText(n, rest)[0] == if n.minus then '-' else n.whole[0];
    }
  }

  /** Every value, however it is written and whatever follows it, is read to its end. */
  lemma {:induction false} ValueReads(v: Value, ws: string, rest: string)
    requires Valid(v) && Blank(ws) && Ends(rest)
    ensures ReadValue(Text(v, ws, rest)) == Some((Kept(v), rest))
    decreases v, 1
  {
    hide SkipWord, ReadRest, SkipNumber, NumberText, ReadFields, SkipArray, Items, Fields, Spell;
    var s := Text(v, ws, rest);
    match v
    case Null => WordSkips("null", rest);
    case Bool(truth) => WordSkips(if truth then "true" else "false", rest);
    case Num(n) => NumberSkips(n, rest);
    case Str(w) =>
      assert s[1..] == Spell(w, rest);
      SpelledReads(w, rest);
    case Arr(items) =>
      assert s[1..] == ws + Items(items, ws, rest);
      ArrayReads(items, ws, rest);
    case Obj(members) =>
      assert s[1..] == ws + Fields(members, ws, rest);
      ObjectReads(members, ws, rest);
  }

  lemma {:induction false} ArrayReads(items: seq<Value>, ws: string, rest: string)
    requires AllValid(items) && Blank(ws)
    ensures SkipArray(ws + Items(items, ws, rest)) == Some(rest)
    decreases items, 1
  {
    var s := Items(items, ws, rest);
    if items == [] {
      BlankSkips(ws, s);
      assert s[1..] == rest;
    } else {
      TextStarts(items[0], ws, ws + (if |items| == 1 then "]" + rest else "," + (ws + Items(items[1..], ws, rest))));
      BlankSkips(ws, s);
      ItemsRead(items, ws, rest);
    }
  }

  lemma {:induction false} ItemsRead(items: seq<Value>, ws: string, rest: string)
    requires items != [] && AllValid(items) && Blank(ws)
    ensures SkipElements(Items(items, ws, rest)) == Some(rest)
    decreases items, 0
  {
    var next := if |items| == 1 then "]" + rest else "," + (ws + Items(items[1..], ws, rest));
    BlankEnds(ws, next);
    ValueReads(items[0], ws, ws + next);
    BlankSkips(ws, next);
    if |items| == 1 {
      assert next[1..] == rest;
    } else {
      var others := Items(items[1..], ws, rest);
      assert next[1..] == ws + others;
      TextStarts(items[1], ws, ws + (if |items| == 2 then "]" + rest else "," + (ws + Items(items[1..][1..], ws, rest))));
      BlankSkips(ws, others);
      ItemsRead(items[1..], ws, rest);
    }
  }

  lemma {:induction false} ObjectReads(members: seq<Member>, ws: string, rest: string)
    requires AllMembersValid(members) && Blank(ws)
    ensures ReadFields(ws + Fields(members, ws, rest)) == Some((SignalsOf(members, map[]), rest))
    decreases members, 1
  {
    var s := Fields(members, ws, rest);
    BlankSkips(ws, s);
    if members == [] {
      assert s[1..] == rest;
    } else {
      FieldsRead(members, ws, map[], rest);
    }
  }

  lemma {:induction false} FieldsRead(members: seq<Member>, ws: string, sofar: Signals, rest: string)
    requires members != [] && AllMembersValid(members) && Blank(ws)
    ensures ReadMembers(Fields(members, ws, rest), sofar) == Some((SignalsOf(members, sofar), rest))
    decreases members, 0
  {
    var m := members[0];
    var next := if |members| == 1 then "}" + rest else "," + (ws + Fields(members[1..], ws, rest));
    hide ReadMember, ReadMembers, Spell, Text, SkipSpace, Left, CanSpell, Chars, Kept;
    FieldReads(m, ws, next);
    BlankSkips(ws, next);
    MembersStep(Fields(members, ws, rest), sofar, Chars(m.name), Kept(m.value), ws + next, next);
    var now := sofar[Chars(m.name) := Kept(m.value)];
    if |members| == 1 {
      assert next[1..] == rest;
      assert SignalsOf(members[1..], now) == now;
    } else {
      var others := Fields(members[1..], ws, rest);
      assert next[1..] == ws + others;
      BlankSkips(ws, others);
      FieldsRead(members[1..], ws, now, rest);
    }
  }

  /** One member read, and what its closing brace or comma makes of the rest. */
  lemma MembersStep(s: string, sofar: Signals, key: string, value: Option<string>, after: string, t: string)
    requires ReadMember(s) == Some((key, value, after)) && SkipSpace(after) == t && t != ""
    ensures t[0] == '}' ==> ReadMembers(s, sofar) == Some((sofar[key := value], t[1..]))
    ensures t[0] == ',' ==> ReadMembers(s, sofar) == ReadMembers(SkipSpace(t[1..]), sofar[key := value])
  {
    hide ReadMember, SkipSpace;
  }

  lemma {:induction false} FieldReads(m: Member, ws: string, next: string)
    requires CanSpell(m.name) && Valid(m.value) && Blank(ws) && next != "" && next[0] in ",}"
    ensures ReadMember("\"" + Spell(m.name, ws + (":" + (ws + Text(m.value, ws, ws + next))))) ==
            Some((Chars(m.name), Kept(m.value), ws + next))
    decreases m, 0
  {
    var value := Text(m.value, ws, ws + next);
    var colon := ":" + (ws + value);
    var s := "\"" + Spell(m.name, ws + colon);
    assert s[1..] == Spell(m.name, ws + colon);
    SpelledReads(m.name, ws + colon);
    BlankSkips(ws, colon);
    assert colon[1..] == ws + value;
    TextStarts(m.value, ws, ws + next);
    BlankSkips(ws, value);
    BlankEnds(ws, next);
    ValueReads(m.value, ws, ws + next);
  }

  /**
   * An object text, however its names and texts are escaped, whatever its members are and with any
   * white space: the reader gives the last text under each name, and none for members of other types.
   */
  lemma ObjectTextReads(members: seq<Member>, ws: string)
    requires AllMembersValid(members) && Blank(ws)
    ensures ReadObject(ws + Text(Obj(members), ws, ws)) == Some(SignalsOf(members, map[]))
  {
    var s := Text(Obj(members), ws, ws);
    BlankSkips(ws, s);
    assert s[1..] == ws + Fields(members, ws, ws);
    ObjectReads(members, ws, ws);
    assert ws == ws + "";
    BlankSkips(ws, "");
  }

  /** An object followed by anything but white space is refused. */
  lemma TrailingTextIsRefused(members: seq<Member>, ws: string, more: string)
    requires AllMembersValid(members) && Blank(ws) && more != "" && !IsSpace(more[0])
    ensures ReadObject(ws + Text(Obj(members), ws, ws + more)) == None
  {
    var s := Text(Obj(members), ws, ws + more);
    BlankSkips(ws, s);
    assert s[1..] == ws + Fields(members, ws, ws + more);
    ObjectReads(members, ws, ws + more);
    BlankSkips(ws, more);
  }

  /** A null reads as an object without members; no other value than an object or null is read at all. */
  lemma OnlyObjectsAndNullRead(v: Value, ws: string)
    requires Valid(v) && Blank(ws)
    ensures v.Null? ==> ReadObject(ws + Text(v, ws, ws)) == Some(map[])
    ensures !v.Null? && !v.Obj? ==> ReadObject(ws + Text(v, ws, ws)) == None
  {
    var s := Text(v, ws, ws);
    TextStarts(v, ws, ws);
    BlankSkips(ws, s);
    assert ws == ws + "";
    BlankSkips(ws, "");
    WordSkips("null", ws);
    if v.Num? {
      NumberSkips(v.number, ws);
    }
  }
}
