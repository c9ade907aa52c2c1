/**
 * Printing does not escape, so the filter signals come back exactly when no value needs escaping. The
 * proof counts backslashes: a JSON string holds a character that needs escaping only at the cost of
 * one, and the printed text has no more of them than its values have characters that need escaping.
 */
module RoundTrip {
  import opened Types
  import opened Json
  import opened Filters

  // ---- what reading costs ----

  /** The characters of a text that a JSON string can only hold escaped. */
  function Specials(s: string): nat {
    if s == "" then 0 else (if IsPlain(s[0]) then 0 else 1) + Specials(s[1..])
  }

  lemma {:induction false} SpecialsZero(s: string)
    ensures Specials(s) == 0 <==> IsClean(s)
    ensures Backslashes(s) <= Specials(s)
    decreases |s|
  {
    if s != "" {
      SpecialsZero(s[1..]);
      assert forall i | 0 < i < |s| :: s[i] == s[1..][i - 1];
    }
  }

  lemma {:induction false} BackslashesOf(a: string, b: string)
    ensures Backslashes(a + b) == Backslashes(a) + Backslashes(b)
    decreases |a|
  {
    if a == "" {
      assert a + b == b;
    } else {
      assert (a + b)[1..] == a[1..] + b;
      BackslashesOf(a[1..], b);
    }
  }

  /** Each character a string holds escaped has cost a backslash. */
  lemma {:induction false} ReadRestCosts(s: string)
    requires ReadRest(s).Some?
    ensures var (text, rest) := ReadRest(s).value; Specials(text) + Backslashes(rest) <= Backslashes(s)
    decreases |s|
  {
    if s[0] == '\\' {
      var (c, after) := ReadEscape(s[1..]).value;
      ReadRestCosts(after);
      assert ([c] + ReadRest(after).value.0)[1..] == ReadRest(after).value.0;
    } else if s[0] != '"' {
      ReadRestCosts(s[1..]);
      assert ([s[0]] + ReadRest(s[1..]).value.0)[1..] == ReadRest(s[1..]).value.0;
    }
  }

  function TextOf(m: Signals, k: string): string {
    if k in m && m[k].Some? then m[k].value else ""
  }

  /** What the texts under the filters' keys cost to write. */
  function Cost(filters: seq<FilterConfig>, m: Signals): nat {
    if filters == [] then 0 else Specials(TextOf(m, FilterKey(filters[0].tagPrefix))) + Cost(filters[1..], m)
  }

  lemma {:induction false} CostUpdate(filters: seq<FilterConfig>, m: Signals, k: string, v: Option<string>)
    requires DistinctKeys(filters)
    ensures Cost(filters, m[k := v]) ==
            Cost(filters, m) + if k in Keys(filters) then Specials(TextOf(m[k := v], k)) - Specials(TextOf(m, k)) else 0
    decreases |filters|
  {
    if filters != [] {
      var f, rest := filters[0], filters[1..];
      assert filters == [f] + rest;
      assert forall g :: g in filters <==> g == f || g in rest;
      CostUpdate(rest, m, k, v);
      assert FilterKey(f.tagPrefix) !in Keys(rest);
      assert k in Keys(filters) <==> k == FilterKey(f.tagPrefix) || k in Keys(rest);
    }
  }

  lemma ReadMemberCosts(s: string)
    requires ReadMember(s).Some?
    ensures var (key, value, rest) := ReadMember(s).value;
      Specials(if value.Some? then value.value else "") + Backslashes(rest) <= Backslashes(s)
  {
    hide ReadRest;
    var t := SkipSpace(ReadString(s).value.1);
    assert Left(t[1..], t);
    var u := SkipSpace(t[1..]);
    if u[0] == '"' {
      assert Left(u[1..], u);
      ReadRestCosts(u[1..]);
    }
  }

  /**
   * Members read cost what they hold; and if the text under k changed on the way, what it was before
   * has been overwritten and no longer counts.
   */
  lemma {:induction false} ReadMembersCost(filters: seq<FilterConfig>, s: string, sofar: Signals, k: string)
    requires DistinctKeys(filters) && k in Keys(filters) && ReadMembers(s, sofar).Some?
    ensures var (m, rest) := ReadMembers(s, sofar).value;
      && Cost(filters, m) + Backslashes(rest) <= Cost(filters, sofar) + Backslashes(s)
      && (TextOf(m, k) != TextOf(sofar, k) ==>
            Cost(filters, m) + Backslashes(rest) + Specials(TextOf(sofar, k)) <= Cost(filters, sofar) + Backslashes(s))
    decreases |s|
  {
    hide ReadMember, Specials, Cost, Keys, Backslashes;
    var (key, value, after) := ReadMember(s).value;
    var now := sofar[key := value];
    ReadMemberCosts(s);
    CostUpdate(filters, sofar, key, value);
    var t := SkipSpace(after);
    StepCosts(after);
    if t[0] == ',' {
      ReadMembersCost(filters, SkipSpace(t[1..]), now, k);
    }
  }

  /** Skipping space, and one more character, costs nothing. */
  lemma StepCosts(s: string)
    ensures var t := SkipSpace(s);
      t != "" ==> Backslashes(t[1..]) <= Backslashes(s) && Backslashes(SkipSpace(t[1..])) <= Backslashes(s)
  {
    var t := SkipSpace(s);
    if t != "" {
      assert Left(t[1..], t);
    }
  }

  // ---- what printing offers ----

  /** The characters of the active values that need escaping, and the backslashes among them. */
  function Needed(filters: seq<FilterConfig>, active: Values): nat {
    if filters == [] then 0 else Specials(Get(active, filters[0].caption)) + Needed(filters[1..], active)
  }

  function Offered(filters: seq<FilterConfig>, active: Values): nat {
    if filters == [] then 0 else Backslashes(Get(active, filters[0].caption)) + Offered(filters[1..], active)
  }

  lemma {:induction false} OfferedIsNotEnough(filters: seq<FilterConfig>, active: Values)
    ensures Offered(filters, active) <= Needed(filters, active)
    decreases |filters|
  {
    if filters != [] {
      SpecialsZero(Get(active, filters[0].caption));
      OfferedIsNotEnough(filters[1..], active);
    }
  }

  lemma MemberOffers(f: FilterConfig, active: Values, rest: string)
    requires IsClean(FilterKey(f.tagPrefix))
    ensures Backslashes(Member(f, active) + rest) == Backslashes(Get(active, f.caption) + "\"" + rest)
    ensures Backslashes(Member(f, active) + rest) == Backslashes(Get(active, f.caption)) + Backslashes(rest)
  {
    var key, value := FilterKey(f.tagPrefix), Get(active, f.caption);
    SpecialsZero(key);
    assert Member(f, active) + rest == "\"" + (key + ("\":\"" + (value + ("\"" + rest))));
    assert value + "\"" + rest == value + ("\"" + rest);
    BackslashesOf("\"", key + ("\":\"" + (value + ("\"" + rest))));
    BackslashesOf(key, "\":\"" + (value + ("\"" + rest)));
    BackslashesOf("\":\"", value + ("\"" + rest));
    BackslashesOf(value, "\"" + rest);
    BackslashesOf("\"", rest);
    assert Backslashes("\":\"") == 0 && Backslashes("\"") == 0;
  }

  lemma {:induction false} PrintedOffers(filters: seq<FilterConfig>, active: Values)
    requires filters != [] && CleanKeys(filters)
    ensures Backslashes(Members(filters, active) + "}") == Offered(filters, active)
    decreases |filters|
  {
    hide Backslashes;
    MembersFirst(filters, active);
    assert filters[0] in filters;
    MemberOffers(filters[0], active, Following(filters, active));
    if |filters| > 1 {
      var others := Members(filters[1..], active) + "}";
      assert forall f | f in filters[1..] :: f in filters;
      PrintedOffers(filters[1..], active);
      BackslashesOf(",", others);
      NoBackslash();
    } else {
      NoBackslash();
    }
  }

  lemma NoBackslash()
    ensures Backslashes(",") == 0 && Backslashes("}") == 0
  {
  }

  predicate Holds(filters: seq<FilterConfig>, active: Values, m: Signals) {
    forall f | f in filters :: TextOf(m, FilterKey(f.tagPrefix)) == Get(active, f.caption)
  }

  lemma {:induction false} CostIsNeeded(filters: seq<FilterConfig>, active: Values, m: Signals)
    requires Holds(filters, active, m)
    ensures Cost(filters, m) == Needed(filters, active)
    decreases |filters|
  {
    hide Specials;
    if filters != [] {
      assert filters[0] in filters && forall f | f in filters[1..] :: f in filters;
      CostIsNeeded(filters[1..], active, m);
    }
  }

  /** Nothing has been read under the filters' keys. */
  predicate Untouched(filters: seq<FilterConfig>, m: Signals) {
    forall f | f in filters :: TextOf(m, FilterKey(f.tagPrefix)) == ""
  }

  lemma {:induction false} UntouchedCost(filters: seq<FilterConfig>, m: Signals)
    requires Untouched(filters, m)
    ensures Cost(filters, m) == 0
    decreases |filters|
  {
    if filters != [] {
      assert filters[0] in filters && forall f | f in filters[1..] :: f in filters;
      UntouchedCost(filters[1..], m);
    }
  }

  // ---- how a value with backslashes reads ----

  predicate NoQuotes(s: string) {
    forall i | 0 <= i < |s| :: s[i] != '"'
  }

  lemma {:induction false} OnlyBackslashes(s: string)
    requires Specials(s) == Backslashes(s)
    ensures NoQuotes(s)
    decreases |s|
  {
    if s != "" {
      SpecialsZero(s[1..]);
      OnlyBackslashes(s[1..]);
      assert forall i | 0 < i < |s| :: s[i] == s[1..][i - 1];
    }
  }

  /** An escape inside a text without quotes ends inside it; only at its end does it take the quote. */
  lemma EscapeEndsInside(u: string, rest: string) returns (k: nat)
    requires NoQuotes(u) && ReadEscape(u + "\"" + rest).Some?
    ensures var (c, after) := ReadEscape(u + "\"" + rest).value;
      if u == "" then c == '"' else 1 <= k <= |u| && after == u[k..] + "\"" + rest
  {
    var s := u + "\"" + rest;
    k := 1;
    if u == "" {
      assert s[0] == '"';
    } else if u[0] != 'u' {
      assert s[0] == u[0] && s[1..] == u[1..] + "\"" + rest;
    } else {
      k := UnitEndsInside(u, rest);
    }
  }

  lemma DropInside(u: string, rest: string, k: nat)
    requires k <= |u|
    ensures (u + "\"" + rest)[k..] == u[k..] + "\"" + rest
  {
  }

  lemma UnitEndsInside(u: string, rest: string) returns (k: nat)
    requires NoQuotes(u) && u != "" && ReadUnit(u + "\"" + rest).Some?
    ensures 1 <= k <= |u| && ReadUnit(u + "\"" + rest).value.1 == u[k..] + "\"" + rest
  {
    var s := u + "\"" + rest;
    hide Hex4;
    DropInside(u, rest, 1);
    Hex4Inside(u[1..], rest);
    DropInside(u, rest, 5);
    var after := s[5..];
    k := 5;
    if ReadUnit(s).value.1 != after {
      assert |after| >= 2 && after[0] == '\\' && after[1] == 'u' && Hex4(after[2..]).Some?;
      hide ReadUnit;
      SecondUnitInside(u[5..], rest);
      assert u[5..][6..] == u[11..];
      k := 11;
    }
  }

  lemma SecondUnitInside(v: string, rest: string)
    requires NoQuotes(v)
    requires var s := v + "\"" + rest; |s| >= 2 && s[0] == '\\' && s[1] == 'u' && Hex4(s[2..]).Some?
    ensures |v| >= 6 && (v + "\"" + rest)[6..] == v[6..] + "\"" + rest
  {
    hide Hex4;
    assert (v + "\"" + rest)[|v|] == '"';
    DropInside(v, rest, 2);
    Hex4Inside(v[2..], rest);
    DropInside(v, rest, 6);
  }

  lemma Hex4Inside(u: string, rest: string)
    requires NoQuotes(u) && Hex4(u + "\"" + rest).Some?
    ensures |u| >= 4
  {
    var s := u + "\"" + rest;
    assert s[|u|] == '"';
    assert HexDigit('"') == None;
  }

  /**
   * A text without quotes but with backslashes, read as a string, uses one of them up and comes out
   * with a quote in it or shorter than it was.
   */
  lemma {:induction false} BackslashesAreRead(v: string, rest: string)
    requires NoQuotes(v) && ReadRest(v + "\"" + rest).Some?
    ensures var (text, after) := ReadRest(v + "\"" + rest).value;
      && ('"' in text || |text| <= |v|)
      && (Backslashes(v) > 0 ==>
            ('"' in text || |text| < |v|) && Backslashes(after) < Backslashes(v + "\"" + rest))
    decreases |v|
  {
    var s := v + "\"" + rest;
    if v == "" {
      assert s[0] == '"';
    } else {
      assert s[0] == v[0] && s[1..] == v[1..] + "\"" + rest;
      if v[0] == '\\' {
        var (c, after) := ReadEscape(s[1..]).value;
        var k := EscapeEndsInside(v[1..], rest);
        if |v| == 1 {
          assert c == '"' && ReadRest(s).value.0[0] == '"';
        } else {
          assert after == v[1 + k..] + "\"" + rest;
          BackslashesAreRead(v[1 + k..], rest);
        }
      } else {
        BackslashesAreRead(v[1..], rest);
      }
    }
  }

  // ---- the exact condition ----

  /** If the members of the filters read back, the first filter's value needed no escaping. */
  lemma FirstIsClean(filters: seq<FilterConfig>, active: Values, sofar: Signals)
    requires filters != [] && DistinctKeys(filters) && CleanKeys(filters) && Untouched(filters, sofar)
    requires var r := ReadMembers(Members(filters, active) + "}", sofar); r.Some? && Holds(filters, active, r.value.0)
    ensures IsClean(Get(active, filters[0].caption))
  {
    hide Members, Member, Following, ReadRest, Backslashes, Specials, IsClean, ReadEscape;
    var s := Members(filters, active) + "}";
    var f, m, following := filters[0], ReadMembers(s, sofar).value.0, Following(filters, active);
    var key, v := FilterKey(f.tagPrefix), Get(active, f.caption);
    assert f in filters && key in Keys(filters);
    CostIsNeeded(filters, active, m);
    UntouchedCost(filters, sofar);
    PrintedOffers(filters, active);
    ReadMembersCost(filters, s, sofar, key);
    OfferedIsNotEnough(filters[1..], active);
    SpecialsZero(v);
    assert Specials(v) == Backslashes(v);
    if Specials(v) > 0 {
      OnlyBackslashes(v);
      MembersFirst(filters, active);
      ReadPrinted(f, active, following);
      BackslashesAreRead(v, following);
      MemberOffers(f, active, following);
      var (text, after) := ReadRest(v + "\"" + following).value;
      assert text != v;
      var now := sofar[key := Some(text)];
      CostUpdate(filters, sofar, key, Some(text));
      StepCosts(after);
      ReadMembersCost(filters, SkipSpace(SkipSpace(after)[1..]), now, key);
      assert false;
    }
  }

  lemma {:induction false} AllAreClean(filters: seq<FilterConfig>, active: Values, sofar: Signals)
    requires filters != [] && DistinctKeys(filters) && CleanKeys(filters) && Untouched(filters, sofar)
    requires var r := ReadMembers(Members(filters, active) + "}", sofar); r.Some? && Holds(filters, active, r.value.0)
    ensures CleanValues(filters, active)
    decreases |filters|
  {
    hide ReadMembers, IsClean;
    var f, rest := filters[0], filters[1..];
    assert filters == [f] + rest && f in filters;
    assert forall g :: g in filters <==> g == f || g in rest;
    FirstIsClean(filters, active, sofar);
    if rest != [] {
      ReadFirstMember(filters, active, sofar);
      AllAreClean(rest, active, sofar[FilterKey(f.tagPrefix) := Some(Get(active, f.caption))]);
    }
  }

  /** What a round trip says of the object read. */
  lemma RoundTripHolds(filters: seq<FilterConfig>, active: Values)
    requires RoundTrips(filters, active)
    ensures Holds(filters, active, ReadObject(Printed(filters, active)).value)
  {
    hide ReadObject, Printed;
    assert forall f | f in filters :: FilterKey(f.tagPrefix) in Keys(filters);
  }

  /**
   * For distinct filter keys that need no escaping, reading the printed signals gives back exactly the
   * non-empty active values if and only if no active value has a quote, a backslash or a control
   * character in it.
   */
  lemma RoundTripsIff(filters: seq<FilterConfig>, active: Values)
    requires DistinctKeys(filters) && CleanKeys(filters)
    ensures RoundTrips(filters, active) <==> CleanValues(filters, active)
  {
    if CleanValues(filters, active) {
      SignalsRoundTrip(filters, active);
    }
    if RoundTrips(filters, active) && filters != [] {
      ReadPrintedObject(filters, active);
      RoundTripHolds(filters, active);
      hide ReadObject, ReadMembers, IsClean, RoundTrips, CleanValues;
      AllAreClean(filters, active, map[]);
    }
  }

  /** So one value with a quote, whatever the others are, does not come back. */
  lemma QuoteDoesNotRoundTrip(filters: seq<FilterConfig>, active: Values, f: FilterConfig)
    requires DistinctKeys(filters) && CleanKeys(filters)
    requires f in filters && '"' in Get(active, f.caption)
    ensures !RoundTrips(filters, active)
  {
    hide RoundTrips;
    var value := Get(active, f.caption);
    var i :| 0 <= i < |value| && value[i] == '"';
    assert !IsPlain(value[i]);
    RoundTripsIff(filters, active);
  }
}
