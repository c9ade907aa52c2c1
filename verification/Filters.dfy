/** ui/helpers.go: the filter signals printed as JSON and read back. */
module Filters {
  import opened Types
  import opened Json

  datatype FilterConfig = FilterConfig(tagPrefix: string, caption: string)

  /** The parameter key of a filter: its tag prefix without a trailing colon. */
  function FilterKey(tagPrefix: string): string {
    if |tagPrefix| > 0 && tagPrefix[|tagPrefix| - 1] == ':' then tagPrefix[..|tagPrefix| - 1] else tagPrefix
  }

  /** One trailing colon is dropped, and nothing else. */
  lemma KeyDropsOneColon(prefix: string)
    ensures FilterKey(prefix + ":") == prefix
    ensures (prefix == "" || prefix[|prefix| - 1] != ':') ==> FilterKey(prefix) == prefix
  {
  }

  type Values = map<string, string>

  function Get(m: Values, k: string): string {
    if k in m then m[k] else ""
  }

  // ---- printing ----

  function Member(f: FilterConfig, active: Values): string {
    "\"" + FilterKey(f.tagPrefix) + "\":\"" + Get(active, f.caption) + "\""
  }

  function Members(filters: seq<FilterConfig>, active: Values): string {
    if filters == [] then ""
    else if |filters| == 1 then Member(filters[0], active)
    else Member(filters[0], active) + "," + Members(filters[1..], active)
  }

  function Printed(filters: seq<FilterConfig>, active: Values): string {
    "{" + Members(filters, active) + "}"
  }

  lemma {:induction false} MembersSnoc(filters: seq<FilterConfig>, f: FilterConfig, active: Values)
    ensures Members(filters + [f], active) ==
            Members(filters, active) + (if filters == [] then "" else ",") + Member(f, active)
    decreases |filters|
  {
    var all := filters + [f];
    if |filters| <= 1 {
      if |filters| == 1 {
        assert all[1..] == [f];
      }
    } else {
      assert all[0] == filters[0] && all[1..] == filters[1..] + [f];
      MembersSnoc(filters[1..], f, active);
      Reassociate(Member(filters[0], active) + ",", Members(filters[1..], active), "," + Member(f, active));
      Reassociate(Members(filters[1..], active), ",", Member(f, active));
      Reassociate(Members(filters, active), ",", Member(f, active));
    }
  }

  lemma Reassociate(a: string, b: string, c: string)
    ensures a + (b + c) == (a + b) + c
  {
  }

  lemma AppendMember(buf: string, f: FilterConfig, active: Values)
    ensures (((buf + "\"") + FilterKey(f.tagPrefix)) + "\":\"") + Get(active, f.caption) + "\"" == buf + Member(f, active)
  {
  }

  method BuildFilterSignals(filters: seq<FilterConfig>, active: Values) returns (json: string)
    ensures json == Printed(filters, active)
  {
    var buf := "{";
    for i := 0 to |filters|
      invariant buf == "{" + Members(filters[..i], active)
    {
      assert filters[..i + 1] == filters[..i] + [filters[i]];
      MembersSnoc(filters[..i], filters[i], active);
      Reassociate("{", Members(filters[..i], active) + (if i == 0 then "" else ","), Member(filters[i], active));
      Reassociate("{", Members(filters[..i], active), if i == 0 then "" else ",");
      if i > 0 {
        buf := buf + ",";
      }
      var key := FilterKey(filters[i].tagPrefix);
      var value := Get(active, filters[i].caption);
      AppendMember(buf, filters[i], active);
      buf := buf + "\"";
      buf := buf + key;
      buf := buf + "\":\"";
      buf := buf + value;
      buf := buf + "\"";
    }
    assert filters[..|filters|] == filters;
    buf := buf + "}";
    return buf;
  }

  // ---- reading the filter values of a request ----

  function Keys(filters: seq<FilterConfig>): set<string> {
    set f | f in filters :: FilterKey(f.tagPrefix)
  }

  /** The members that are strings; reading any other into a string fails or leaves it empty. */
  function Texts(signals: Signals): Values {
    map k | k in signals && signals[k].Some? :: signals[k].value
  }

  /** The non-empty values of the filter keys. */
  function Selected(filters: seq<FilterConfig>, raw: Values): Values {
    map k | k in raw && raw[k] != "" && k in Keys(filters) :: raw[k]
  }

  /** The datastar parameter when it reads as a JSON object, else the plain query parameters. */
  method ReadFilterValues(filters: seq<FilterConfig>, datastar: string, query: Values) returns (values: Values)
    ensures values ==
      if datastar != "" && ReadObject(datastar).Some? then Selected(filters, Texts(ReadObject(datastar).value))
      else Selected(filters, query)
  {
    hide ReadObject;
    values := map[];
    if datastar != "" {
      var raw := ReadObject(datastar);
      if raw.Some? {
        for i := 0 to |filters|
          invariant values == Selected(filters[..i], Texts(raw.value))
        {
          SelectedSnoc(filters, i, Texts(raw.value));
          var key := FilterKey(filters[i].tagPrefix);
          if key in raw.value {
            var value := raw.value[key];
            if value.Some? && value.value != "" {
              values := values[key := value.value];
            }
          }
        }
        assert filters[..|filters|] == filters;
        return;
      }
    }
    for i := 0 to |filters|
      invariant values == Selected(filters[..i], query)
    {
      SelectedSnoc(filters, i, query);
      var key := FilterKey(filters[i].tagPrefix);
      var value := Get(query, key);
      if value != "" {
        values := values[key := value];
      }
    }
    assert filters[..|filters|] == filters;
  }

  /** Exactly the non-empty values of the filters' keys are selected, unchanged. */
  lemma SelectedExactly(filters: seq<FilterConfig>, raw: Values, k: string)
    ensures k in Selected(filters, raw) <==>
            k in raw && raw[k] != "" && exists f | f in filters :: FilterKey(f.tagPrefix) == k
    ensures k in Selected(filters, raw) ==> Selected(filters, raw)[k] == raw[k]
  {
  }

  lemma SelectedSnoc(filters: seq<FilterConfig>, i: nat, raw: Values)
    requires i < |filters|
    ensures var key := FilterKey(filters[i].tagPrefix);
      Selected(filters[..i + 1], raw) ==
        if Get(raw, key) != "" then Selected(filters[..i], raw)[key := raw[key]] else Selected(filters[..i], raw)
  {
    assert filters[..i + 1] == filters[..i] + [filters[i]];
    assert Keys(filters[..i + 1]) == Keys(filters[..i]) + {FilterKey(filters[i].tagPrefix)} by {
      assert forall f :: f in filters[..i + 1] <==> f in filters[..i] || f == filters[i];
    }
  }

  // ---- the round trip ----

  predicate DistinctKeys(filters: seq<FilterConfig>) {
    forall i, j | 0 <= i < j < |filters| :: FilterKey(filters[i].tagPrefix) != FilterKey(filters[j].tagPrefix)
  }

  /** No key needs escaping. */
  predicate CleanKeys(filters: seq<FilterConfig>) {
    forall f | f in filters :: IsClean(FilterKey(f.tagPrefix))
  }

  predicate CleanValues(filters: seq<FilterConfig>, active: Values) {
    forall f | f in filters :: IsClean(Get(active, f.caption))
  }

  /** Reading the printed signals gives back exactly the non-empty active values, under the filters' keys. */
  predicate RoundTrips(filters: seq<FilterConfig>, active: Values) {
    var signals := ReadObject(Printed(filters, active));
    && signals.Some?
    && var values := Selected(filters, Texts(signals.value));
       forall f | f in filters ::
         var key, value := FilterKey(f.tagPrefix), Get(active, f.caption);
         (key in values <==> value != "") && (value != "" ==> values[key] == value)
  }

  lemma {:induction false} ReadRestOfClean(text: string, rest: string)
    requires IsClean(text)
    ensures ReadRest(text + "\"" + rest) == Some((text, rest))
    decreases |text|
  {
    var s := text + "\"" + rest;
    if text == "" {
      assert s == "\"" + rest && s[1..] == rest;
    } else {
      assert s[0] == text[0] && s[1..] == text[1..] + "\"" + rest;
      ReadRestOfClean(text[1..], rest);
      assert [text[0]] + text[1..] == text;
    }
  }

  lemma ReadStringOfClean(text: string, rest: string)
    requires IsClean(text)
    ensures ReadString("\"" + text + "\"" + rest) == Some((text, rest))
  {
    ReadRestOfClean(text, rest);
    assert ("\"" + text + "\"" + rest)[1..] == text + "\"" + rest;
  }

  /** A printed member, with any value: the key reads as it is, and the value token starts after it. */
  lemma ReadPrinted(f: FilterConfig, active: Values, rest: string)
    requires IsClean(FilterKey(f.tagPrefix))
    ensures var value := Get(active, f.caption);
      ReadMember(Member(f, active) + rest) ==
        match ReadRest(value + "\"" + rest)
        case None => None
        case Some((text, after)) => Some((FilterKey(f.tagPrefix), Some(text), after))
  {
    var key, value := FilterKey(f.tagPrefix), Get(active, f.caption);
    var token := "\"" + (value + "\"" + rest);
    var afterKey := ":" + token;
    assert Member(f, active) + rest == "\"" + key + "\"" + afterKey;
    ReadStringOfClean(key, afterKey);
    assert afterKey[0] == ':' && afterKey[1..] == token && token[0] == '"' && token[1..] == value + "\"" + rest;
    hide ReadRest;
    assert SkipSpace(afterKey) == afterKey && SkipSpace(token) == token;
  }

  /** What reading the members of the filters adds to what was read before. */
  function Added(filters: seq<FilterConfig>, active: Values, sofar: Signals): Signals {
    if filters == [] then sofar
    else Added(filters[1..], active, sofar[FilterKey(filters[0].tagPrefix) := Some(Get(active, filters[0].caption))])
  }

  /** The printed members after the first, up to the closing brace. */
  function Following(filters: seq<FilterConfig>, active: Values): string
    requires filters != []
  {
    if |filters| == 1 then "}" else "," + (Members(filters[1..], active) + "}")
  }

  lemma MembersFirst(filters: seq<FilterConfig>, active: Values)
    requires filters != []
    ensures Members(filters, active) + "}" == Member(filters[0], active) + Following(filters, active)
  {
    if |filters| > 1 {
      var m, rest := Member(filters[0], active), Members(filters[1..], active);
      assert Members(filters, active) == m + "," + rest;
      Reassociate(m, ",", rest + "}");
      Reassociate(m + ",", rest, "}");
    }
  }

  /** Reading on after the first member, when its value needs no escaping. */
  lemma ReadFirstMember(filters: seq<FilterConfig>, active: Values, sofar: Signals)
    requires filters != [] && IsClean(FilterKey(filters[0].tagPrefix)) && IsClean(Get(active, filters[0].caption))
    ensures var now := sofar[FilterKey(filters[0].tagPrefix) := Some(Get(active, filters[0].caption))];
      ReadMembers(Members(filters, active) + "}", sofar) ==
        if |filters| == 1 then Some((now, "")) else ReadMembers(Members(filters[1..], active) + "}", now)
  {
    var f, rest := filters[0], Following(filters, active);
    FollowingStarts(filters, active);
    hide ReadRest, ReadMember, Member, Members, Following, SkipSpace;
    MembersFirst(filters, active);
    ReadPrinted(f, active, rest);
    ReadRestOfClean(Get(active, f.caption), rest);
  }

  /** What follows a member is the closing brace, or a comma and the other members. */
  lemma FollowingStarts(filters: seq<FilterConfig>, active: Values)
    requires filters != []
    ensures var rest := Following(filters, active);
      && rest != "" && SkipSpace(rest) == rest
      && (|filters| == 1 ==> rest[0] == '}' && rest[1..] == "")
      && (|filters| > 1 ==>
            && rest[0] == ','
            && SkipSpace(rest[1..]) == rest[1..] == Members(filters[1..], active) + "}")
  {
    if |filters| > 1 {
      var others := Members(filters[1..], active) + "}";
      assert Following(filters, active)[1..] == others && others[0] == '"';
    }
  }

  lemma {:induction false} ReadAllMembers(filters: seq<FilterConfig>, active: Values, sofar: Signals)
    requires filters != [] && CleanKeys(filters) && CleanValues(filters, active)
    ensures ReadMembers(Members(filters, active) + "}", sofar) == Some((Added(filters, active, sofar), ""))
    decreases |filters|
  {
    hide ReadMembers;
    var f := filters[0];
    assert f in filters;
    ReadFirstMember(filters, active, sofar);
    if |filters| > 1 {
      assert forall g | g in filters[1..] :: g in filters;
      ReadAllMembers(filters[1..], active, sofar[FilterKey(f.tagPrefix) := Some(Get(active, f.caption))]);
    }
  }

  lemma {:induction false} AddedValues(filters: seq<FilterConfig>, active: Values, sofar: Signals)
    requires DistinctKeys(filters)
    ensures var m := Added(filters, active, sofar);
      && (forall f | f in filters ::
            FilterKey(f.tagPrefix) in m && m[FilterKey(f.tagPrefix)] == Some(Get(active, f.caption)))
      && (forall k | k in sofar && k !in Keys(filters) :: k in m && m[k] == sofar[k])
    decreases |filters|
  {
    if filters != [] {
      var f, rest := filters[0], filters[1..];
      assert filters == [f] + rest;
      assert forall g :: g in filters <==> g == f || g in rest;
      var now := sofar[FilterKey(f.tagPrefix) := Some(Get(active, f.caption))];
      AddedValues(rest, active, now);
      assert FilterKey(f.tagPrefix) !in Keys(rest);
    }
  }

  /** The printed object is read as its members, up to its end. */
  lemma ReadPrintedObject(filters: seq<FilterConfig>, active: Values)
    requires filters != []
    ensures var r := ReadMembers(Members(filters, active) + "}", map[]);
      ReadObject(Printed(filters, active)) == if r.Some? && SkipSpace(r.value.1) == "" then Some(r.value.0) else None
  {
    hide ReadMembers;
    var s, inner := Printed(filters, active), Members(filters, active) + "}";
    assert s[0] == '{' && s[1..] == inner;
    assert inner[0] == '"';
    assert SkipSpace(s) == s && SkipSpace(inner) == inner;
  }

  lemma SignalsRoundTrip(filters: seq<FilterConfig>, active: Values)
    requires DistinctKeys(filters) && CleanKeys(filters) && CleanValues(filters, active)
    ensures RoundTrips(filters, active)
  {
    if filters != [] {
      ReadPrintedObject(filters, active);
      ReadAllMembers(filters, active, map[]);
      AddedValues(filters, active, map[]);
      assert forall f | f in filters :: FilterKey(f.tagPrefix) in Keys(filters);
      hide ReadObject, ReadMembers;
      assert SkipSpace("") == "";
    } else {
      assert Printed(filters, active) == "{}";
      assert "{}"[1..] == "}" && "}"[1..] == "";
    }
  }
}
