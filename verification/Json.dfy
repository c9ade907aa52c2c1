/**
 * The JSON reader that the filter signals go through (RFC 8259): an object whose members are kept as
 * text when they are strings and skipped over when they are anything else.
 */
module Json {
  import opened Types

  // ---- what a reader leaves ----

  function Backslashes(s: string): nat {
    if s == "" then 0 else (if s[0] == '\\' then 1 else 0) + Backslashes(s[1..])
  }

  /** What is left of s after reading a part of it. */
  predicate Left(rest: string, s: string) {
    |rest| < |s| && Backslashes(rest) <= Backslashes(s)
  }

  // ---- white space, literals, numbers ----

  predicate IsSpace(c: char) {
    c == ' ' || c == '\t' || c == '\n' || c == '\r'
  }

  function SkipSpace(s: string): (rest: string)
    ensures rest == s || Left(rest, s)
  {
    if s != "" && IsSpace(s[0]) then SkipSpace(s[1..]) else s
  }

  function SkipWord(s: string, word: string): (r: Option<string>)
    ensures r.Some? ==> r.value == s || Left(r.value, s)
    ensures r.Some? && word != "" ==> Left(r.value, s)
  {
    if word == "" then Some(s)
    else if s == "" || s[0] != word[0] then None
    else SkipWord(s[1..], word[1..])
  }

  predicate IsDigit(c: char) {
    '0' <= c <= '9'
  }

  /** At least one digit. */
  function SkipDigits(s: string): (r: Option<string>)
    ensures r.Some? ==> Left(r.value, s)
  {
    if s == "" || !IsDigit(s[0]) then None
    else if SkipDigits(s[1..]).Some? then SkipDigits(s[1..])
    else Some(s[1..])
  }

  function SkipFraction(s: string): (r: Option<string>)
    ensures r.Some? ==> r.value == s || Left(r.value, s)
  {
    if s != "" && s[0] == '.' then SkipDigits(s[1..]) else Some(s)
  }

  function SkipExponent(s: string): (r: Option<string>)
    ensures r.Some? ==> r.value == s || Left(r.value, s)
  {
    if s == "" || (s[0] != 'e' && s[0] != 'E') then Some(s)
    else
      var t := s[1..];
      assert t != "" ==> Left(t[1..], t);
      if t != "" && (t[0] == '+' || t[0] == '-') then SkipDigits(t[1..]) else SkipDigits(t)
  }

  function SkipNumber(s: string): (r: Option<string>)
    ensures r.Some? ==> Left(r.value, s)
  {
    var t := if s != "" && s[0] == '-' then s[1..] else s;
    match if t != "" && t[0] == '0' then Some(t[1..]) else SkipDigits(t)
    case None => None
    case Some(a) =>
      match SkipFraction(a)
      case None => None
      case Some(b) => SkipExponent(b)
  }

  // ---- strings ----

  /** A character that stands for itself inside a string. */
  predicate IsPlain(c: char) {
    c != '"' && c != '\\' && c >= ' '
  }

  predicate IsClean(s: string) {
    forall i | 0 <= i < |s| :: IsPlain(s[i])
  }

  function HexDigit(c: char): Option<nat> {
    if '0' <= c <= '9' then Some((c - '0') as nat)
    else if 'a' <= c <= 'f' then Some((c - 'a') as nat + 10)
    else if 'A' <= c <= 'F' then Some((c - 'A') as nat + 10)
    else None
  }

  /** Four hexadecimal digits. */
  function Hex4(s: string): (r: Option<nat>)
    ensures r.Some? ==> r.value < 0x10000
  {
    if |s| < 4 then None
    else
      match (HexDigit(s[0]), HexDigit(s[1]), HexDigit(s[2]), HexDigit(s[3]))
      case (Some(a), Some(b), Some(c), Some(d)) =>
        if a < 16 && b < 16 && c < 16 && d < 16 then Some(a * 4096 + b * 256 + c * 16 + d) else None
      case _ => None
  }

  const REPLACEMENT := '\U{FFFD}'

  /** The escape for one UTF-16 unit, and the second of a surrogate pair; a lone surrogate is replaced. */
  function ReadUnit(s: string): (r: Option<(char, string)>)
    requires s != ""
    ensures r.Some? ==> Left(r.value.1, s)
  {
    match Hex4(s[1..])
    case None => None
    case Some(high) =>
      var rest := Drop(s, 5);
      if !(0xD800 <= high < 0xE000) then Some((high as char, rest))
      else if high < 0xDC00 && |rest| >= 2 && rest[0] == '\\' && rest[1] == 'u' then
        match Hex4(rest[2..])
        case Some(low) =>
          if 0xDC00 <= low < 0xE000 then
            Some(((0x10000 + (high - 0xD800) * 0x400 + (low - 0xDC00)) as char, Drop(rest, 6)))
          else Some((REPLACEMENT, rest))
        case None => Some((REPLACEMENT, rest))
      else Some((REPLACEMENT, rest))
  }

  function Drop(s: string, n: nat): (rest: string)
    requires n <= |s|
    ensures rest == s[n..]
    ensures if n == 0 then rest == s else Left(rest, s)
  {
    if n == 0 then s else Drop(s[1..], n - 1)
  }

  /** The character an escape stands for; s is what follows the backslash. */
  function ReadEscape(s: string): (r: Option<(char, string)>)
    ensures r.Some? ==> Left(r.value.1, s)
  {
    if s == "" then None
    else
      match s[0]
      case '"' => Some(('"', s[1..]))
      case '\\' => Some(('\\', s[1..]))
      case '/' => Some(('/', s[1..]))
      case 'b' => Some((8 as char, s[1..]))
      case 'f' => Some((12 as char, s[1..]))
      case 'n' => Some(('\n', s[1..]))
      case 'r' => Some(('\r', s[1..]))
      case 't' => Some(('\t', s[1..]))
      case 'u' => ReadUnit(s)
      case _ => None
  }

  /** The rest of a string up to its closing quote, and what follows the quote. */
  function ReadRest(s: string): (r: Option<(string, string)>)
    ensures r.Some? ==> Left(r.value.1, s)
    decreases |s|
  {
    if s == "" then None
    else if s[0] == '"' then Some(("", s[1..]))
    else if s[0] == '\\' then
      match ReadEscape(s[1..])
      case None => None
      case Some((c, after)) => Prepend(c, ReadRest(after))
    else if IsPlain(s[0]) then Prepend(s[0], ReadRest(s[1..]))
    else None
  }

  function Prepend(c: char, r: Option<(string, string)>): Option<(string, string)> {
    match r
    case None => None
    case Some((text, rest)) => Some(([c] + text, rest))
  }

  function ReadString(s: string): (r: Option<(string, string)>)
    ensures r.Some? ==> Left(r.value.1, s)
  {
    if s == "" || s[0] != '"' then None else ReadRest(s[1..])
  }

  // ---- values ----

  /** An object: the text of each member that is a string, None for any other. */
  type Signals = map<string, Option<string>>

  function ReadValue(s: string): (r: Option<(Option<string>, string)>)
    ensures r.Some? ==> Left(r.value.1, s)
    decreases |s|, 0
  {
    if s == "" then None
    else if s[0] == '"' then
      match ReadRest(s[1..])
      case None => None
      case Some((text, rest)) => Some((Some(text), rest))
    else if s[0] == '{' then
      match ReadFields(s[1..])
      case None => None
      case Some((_, rest)) => Some((None, rest))
    else
      var skipped :=
        if s[0] == '[' then SkipArray(s[1..])
        else if s[0] == 't' then SkipWord(s, "true")
        else if s[0] == 'f' then SkipWord(s, "false")
        else if s[0] == 'n' then SkipWord(s, "null")
        else SkipNumber(s);
      match skipped
      case None => None
      case Some(rest) => Some((None, rest))
  }

  /** An array after its opening bracket. */
  function SkipArray(s: string): (r: Option<string>)
    ensures r.Some? ==> Left(r.value, s)
    decreases |s|, 2
  {
    var t := SkipSpace(s);
    if t != "" && t[0] == ']' then Some(t[1..]) else SkipElements(t)
  }

  function SkipElements(s: string): (r: Option<string>)
    ensures r.Some? ==> Left(r.value, s)
    decreases |s|, 1
  {
    match ReadValue(s)
    case None => None
    case Some((_, after)) =>
      var t := SkipSpace(after);
      if t == "" then None
      else if t[0] == ']' then Some(t[1..])
      else if t[0] == ',' then SkipElements(SkipSpace(t[1..]))
      else None
  }

  /** An object after its opening brace. */
  function ReadFields(s: string): (r: Option<(Signals, string)>)
    ensures r.Some? ==> Left(r.value.1, s)
    decreases |s|, 2
  {
    var t := SkipSpace(s);
    if t != "" && t[0] == '}' then Some((map[], t[1..])) else ReadMembers(t, map[])
  }

  /** A member: its name, a colon, its value, with what follows. */
  function ReadMember(s: string): (r: Option<(string, Option<string>, string)>)
    ensures r.Some? ==> Left(r.value.2, s)
    decreases |s|, 0
  {
    match ReadString(s)
    case None => None
    case Some((key, afterKey)) =>
      var t := SkipSpace(afterKey);
      if t == "" || t[0] != ':' then None
      else
        match ReadValue(SkipSpace(t[1..]))
        case None => None
        case Some((value, rest)) => Some((key, value, rest))
  }

  /** Members up to the closing brace; of members with the same name the last one counts. */
  function ReadMembers(s: string, sofar: Signals): (r: Option<(Signals, string)>)
    ensures r.Some? ==> Left(r.value.1, s)
    decreases |s|, 1
  {
    match ReadMember(s)
    case None => None
    case Some((key, value, after)) =>
      var t := SkipSpace(after);
      if t == "" then None
      else if t[0] == '}' then Some((sofar[key := value], t[1..]))
      else if t[0] == ',' then ReadMembers(SkipSpace(t[1..]), sofar[key := value])
      else None
  }

  /** A whole text that is an object; null reads as an object without members. */
  function ReadObject(s: string): Option<Signals> {
    var t := SkipSpace(s);
    if t != "" && t[0] == '{' then
      match ReadFields(t[1..])
      case None => None
      case Some((signals, rest)) => if SkipSpace(rest) == "" then Some(signals) else None
    else
      match SkipWord(t, "null")
      case None => None
      case Some(rest) => if SkipSpace(rest) == "" then Some(map[]) else None
  }
}
