/**
  The facts the catalog client sends to the server, the list of "dynamic"
  facts that change on their own (memory and swap figures), and the test of
  whether the facts changed since the last compile, which ignores the dynamic
  ones.

  Facter is a map from fact names to values; the cached snapshot of the last
  compile is an optional map (a missing snapshot counts as empty).
 */
module ClientFacts {
  import opened Wrappers
  import opened Text
  import opened Numerals

  /** The values Facter reports. */
  datatype FactValue = FStr(s: string) | FInt(i: int) | FBool(b: bool)

  /** `to_s` of a fact value. */
  function ValueText(v: FactValue): string {
    match v
    case FStr(s) => s
    case FInt(i) => IntText(i)
    case FBool(b) => if b then "true" else "false"
  }

  /** `facts`: every Facter value as a string (lower-cased when
      `downcasefacts` is set); then "clientversion" is set to the client's
      version, replacing any fact of that name, and "environment" is added
      from the settings unless Facter already reported one. */
  function Facts(facter: map<string, FactValue>, downcase: bool, version: string, environment: string)
    : (r: map<string, string>)
    ensures r.Keys == facter.Keys + {"clientversion", "environment"}
    ensures forall k :: k in facter && k != "clientversion" ==>
              r[k] == (if downcase then Downcase(ValueText(facter[k])) else ValueText(facter[k]))
    ensures r["clientversion"] == version
    ensures "environment" !in facter ==> r["environment"] == environment
  {
    var stringified := map k | k in facter :: if downcase then Downcase(ValueText(facter[k])) else ValueText(facter[k]);
    var versioned := stringified["clientversion" := version];
    if "environment" in versioned then versioned else versioned["environment" := environment]
  }

  /** The fact map is never empty, so `getconfig`'s empty-facts error cannot
      arise from facts assembled this way. */
  lemma FactsNeverEmpty(facter: map<string, FactValue>, downcase: bool, version: string, environment: string)
    ensures |Facts(facter, downcase, version, environment)| > 0
  {
    assert "clientversion" in Facts(facter, downcase, version, environment);
  }

  // ---------------------------------------------------------------------
  // Dynamic facts

  /** What `\s` matches in Ruby 1.8 regular expressions. */
  predicate IsSpace(c: char) {
    c == ' ' || c == '\t' || c == '\n' || c == '\r' || c == '\U{000C}'
  }

  predicate NoSpace(s: string) {
    forall i :: 0 <= i < |s| ==> !IsSpace(s[i])
  }

  function StripLeadingSpace(s: string): (r: string)
    ensures |r| > 0 ==> !IsSpace(r[0])
    ensures |r| <= |s| && r == s[|s| - |r|..]
    ensures forall i :: 0 <= i < |s| - |r| ==> IsSpace(s[i])
  {
    if |s| > 0 && IsSpace(s[0]) then StripLeadingSpace(s[1..]) else s
  }

  function StripTrailingSpace(s: string): (r: string)
    ensures r <= s
    ensures |r| > 0 ==> !IsSpace(r[|r| - 1])
    ensures forall i :: |r| <= i < |s| ==> IsSpace(s[i])
  {
    if |s| > 0 && IsSpace(s[|s| - 1]) then StripTrailingSpace(s[..|s| - 1]) else s
  }

  /** The fields of a split on a comma with any white space around it, before
      trailing empty fields are dropped: the fields between commas, with the
      white space next to a comma removed.  White space at the very start and end of the setting is kept,
      as no comma borders it. */
  function TrimField(fields: seq<string>, i: nat): (r: string)
    requires i < |fields|
    ensures forall j :: 0 <= j < |r| ==> r[j] in fields[i]
  {
    var lead := if i > 0 then StripLeadingSpace(fields[i]) else fields[i];
    if i < |fields| - 1 then StripTrailingSpace(lead) else lead
  }

  function TrimAroundCommas(fields: seq<string>): (r: seq<string>)
    ensures |r| == |fields|
    ensures forall i :: 0 <= i < |fields| ==> r[i] == TrimField(fields, i)
  {
    seq(|fields|, i requires 0 <= i < |fields| => TrimField(fields, i))
  }

  function DowncaseAll(names: seq<string>): (r: seq<string>)
    ensures |r| == |names|
    ensures forall i :: 0 <= i < |names| ==> r[i] == Downcase(names[i])
  {
    seq(|names|, i requires 0 <= i < |names| => Downcase(names[i]))
  }

  /** `dynamic_facts`: the `dynamicfacts` setting split on commas with any
      surrounding white space, trailing empty fields dropped, each name
      lower-cased. */
  function DynamicFacts(setting: string): (r: seq<string>)
    ensures forall i :: 0 <= i < |r| ==> IsLowercase(r[i])
    ensures |r| > 0 ==> r[|r| - 1] != ""
  {
    DowncaseAll(DropTrailingEmpty(TrimAroundCommas(Split(setting, ','))))
  }

  /** No dynamic fact name contains a comma. */
  lemma DynamicFactsNoComma(setting: string, i: nat)
    requires i < |DynamicFacts(setting)|
    ensures ',' !in DynamicFacts(setting)[i]
  {
    var all := Split(setting, ',');
    var trimmed := TrimAroundCommas(all);
    var fields := DropTrailingEmpty(trimmed);
    var name := DynamicFacts(setting)[i];
    assert fields[i] == trimmed[i] == TrimField(all, i);
    assert ',' !in all[i];
    forall j | 0 <= j < |name|
      ensures name[j] != ','
    {
      assert name[j] == LowerChar(fields[i][j]);
      assert fields[i][j] in all[i];
    }
  }

  /** A name the setting can list and get back unchanged. */
  predicate PlainFactName(name: string) {
    |name| > 0 && IsLowercase(name) && NoSpace(name) && ',' !in name
  }

  lemma TrimPlainNames(names: seq<string>)
    requires forall i :: 0 <= i < |names| ==> PlainFactName(names[i])
    ensures TrimAroundCommas(names) == names
  {
    var r := TrimAroundCommas(names);
    forall i | 0 <= i < |names|
      ensures r[i] == names[i]
    {
      var n := names[i];
      assert |n| > 0 && !IsSpace(n[0]) && !IsSpace(n[|n| - 1]);
    }
  }

  /** A comma-separated list of plain names reads back as those names. */
  lemma DynamicFactsJoin(names: seq<string>)
    requires |names| > 0
    requires forall i :: 0 <= i < |names| ==> PlainFactName(names[i])
    ensures DynamicFacts(Join(names, ',')) == names
  {
    SplitJoin(names, ',');
    TrimPlainNames(names);
    assert DropTrailingEmpty(names) == names;
    forall i | 0 <= i < |names|
      ensures Downcase(names[i]) == names[i]
    {
      DowncaseOfLowercase(names[i]);
    }
  }

  predicate AllSpace(p: string) {
    forall i :: 0 <= i < |p| ==> IsSpace(p[i])
  }

  lemma {:induction false} StripTrailingPadding(a: string, p: string)
    requires |a| > 0 ==> !IsSpace(a[|a| - 1])
    requires AllSpace(p)
    ensures StripTrailingSpace(a + p) == a
    decreases |p|
  {
    if |p| == 0 {
      assert a + p == a;
    } else {
      assert (a + p)[..|a + p| - 1] == a + p[..|p| - 1];
      StripTrailingPadding(a, p[..|p| - 1]);
    }
  }

  lemma {:induction false} StripLeadingPadding(q: string, b: string)
    requires |b| > 0 ==> !IsSpace(b[0])
    requires AllSpace(q)
    ensures StripLeadingSpace(q + b) == b
    decreases |q|
  {
    if |q| == 0 {
      assert q + b == b;
    } else {
      assert (q + b)[1..] == q[1..] + b;
      StripLeadingPadding(q[1..], b);
    }
  }

  /** The comma splits the padded setting into the name-and-padding on each
      side. */
  lemma SplitPadded(a: string, p: string, q: string, b: string)
    requires PlainFactName(a) && PlainFactName(b)
    requires AllSpace(p) && AllSpace(q)
    ensures Split(a + p + "," + q + b, ',') == [a + p, q + b]
  {
    var front := a + p;
    var back := q + b;
    assert ',' !in front by {
      forall i | 0 <= i < |front| ensures front[i] != ',' {
        if i < |a| { assert front[i] == a[i]; } else { assert IsSpace(p[i - |a|]); }
      }
    }
    assert ',' !in back by {
      forall i | 0 <= i < |back| ensures back[i] != ',' {
        if i < |q| { assert IsSpace(q[i]); } else { assert back[i] == b[i - |q|]; }
      }
    }
    assert a + p + "," + q + b == front + [','] + back;
    SplitAfterField(front, ',', back);
    SplitWithoutSeparator(back, ',');
  }

  /** White space on either side of the comma is not part of a name:
      "a , b" and "a,b" both read as the names a and b. */
  lemma DynamicFactsPadded(a: string, p: string, q: string, b: string)
    requires PlainFactName(a) && PlainFactName(b)
    requires AllSpace(p) && AllSpace(q)
    ensures DynamicFacts(a + p + "," + q + b) == [a, b]
  {
    SplitPadded(a, p, q, b);
    var fields := [a + p, q + b];
    StripTrailingPadding(a, p);
    StripLeadingPadding(q, b);
    assert TrimAroundCommas(fields) == [a, b];
    assert DropTrailingEmpty([a, b]) == [a, b];
    DowncaseOfLowercase(a);
    DowncaseOfLowercase(b);
    assert DowncaseAll([a, b]) == [a, b];
  }

  /** The default list reads back as memorysize, memoryfree, swapsize and
      swapfree. */
  lemma DefaultDynamicFacts()
    ensures var names := ["memorysize", "memoryfree", "swapsize", "swapfree"];
            DynamicFacts(Join(names, ',')) == names
  {
    var names := ["memorysize", "memoryfree", "swapsize", "swapfree"];
    forall i | 0 <= i < |names|
      ensures PlainFactName(names[i])
    {
    }
    DynamicFactsJoin(names);
  }

  // ---------------------------------------------------------------------
  // Changed facts

  /** The map with the dynamic keys deleted. */
  function WithoutDynamic(m: map<string, string>, dynamic: seq<string>): (r: map<string, string>)
    ensures forall k :: k in r <==> k in m && k !in dynamic
    ensures forall k :: k in r ==> r[k] == m[k]
  {
    map k | k in m && k !in dynamic :: m[k]
  }

  /** Two fact maps agree on every fact that is not dynamic. */
  predicate AgreeOutside(a: map<string, string>, b: map<string, string>, dynamic: seq<string>) {
    && (forall k :: k in a && k !in dynamic ==> k in b && a[k] == b[k])
    && (forall k :: k in b && k !in dynamic ==> k in a)
  }

  /** Removing the dynamic keys makes two maps equal exactly when they agree
      on every fact that is not dynamic. */
  lemma WithoutDynamicEqual(a: map<string, string>, b: map<string, string>, dynamic: seq<string>)
    ensures WithoutDynamic(a, dynamic) == WithoutDynamic(b, dynamic) <==> AgreeOutside(a, b, dynamic)
  {
    var wa := WithoutDynamic(a, dynamic);
    var wb := WithoutDynamic(b, dynamic);
    if AgreeOutside(a, b, dynamic) {
      assert wa.Keys == wb.Keys;
      assert forall k :: k in wa ==> wa[k] == wb[k];
    }
    if wa == wb {
      forall k | k in a && k !in dynamic
        ensures k in b && a[k] == b[k]
      {
        assert k in wa;
      }
      forall k | k in b && k !in dynamic
        ensures k in a
      {
        assert k in wb;
      }
    }
  }

  /** `facts_changed?`: compares the cached snapshot (empty when there is
      none) with the current facts after deleting the dynamic facts from
      copies of both.  The facts changed exactly when some non-dynamic fact
      was added, removed or given another value. */
  function FactsChanged(cached: Option<map<string, string>>, facts: map<string, string>,
                        dynamic: seq<string>): (r: bool)
    ensures r <==> !AgreeOutside(cached.GetOr(map[]), facts, dynamic)
  {
    WithoutDynamicEqual(cached.GetOr(map[]), facts, dynamic);
    WithoutDynamic(cached.GetOr(map[]), dynamic) != WithoutDynamic(facts, dynamic)
  }

  /** Differences confined to dynamic facts, whether a dynamic fact is new,
      changed, or present only in the cache, do not count as a change. */
  lemma DynamicDifferencesIgnored(cached: map<string, string>, facts: map<string, string>,
                                  dynamic: seq<string>, k: string, v: string)
    requires k in dynamic
    ensures !FactsChanged(Some(cached), cached[k := v], dynamic)
    ensures !FactsChanged(Some(cached[k := v]), cached - {k}, dynamic)
    ensures !FactsChanged(Some(cached[k := v]), cached, dynamic)
  {
  }

  /** Adding or changing a fact that is not dynamic counts as a change. */
  lemma StaticDifferenceDetected(cached: map<string, string>, dynamic: seq<string>, k: string, v: string)
    requires k !in dynamic
    requires k !in cached || cached[k] != v
    ensures FactsChanged(Some(cached), cached[k := v], dynamic)
  {
    assert !AgreeOutside(cached, cached[k := v], dynamic) by {
      assert k in cached[k := v];
    }
  }

  /** With no cached snapshot, the facts changed exactly when some fact is
      not dynamic. */
  lemma NoSnapshotChanged(facts: map<string, string>, dynamic: seq<string>)
    ensures FactsChanged(None, facts, dynamic) <==> exists k :: k in facts && k !in dynamic
  {
    if exists k :: k in facts && k !in dynamic {
      var k :| k in facts && k !in dynamic;
      assert !AgreeOutside(map[], facts, dynamic);
    }
  }
}
