/**
  Resource references such as `File[/etc/passwd]`: parsing the bracketed form
  out of a title, canonicalising the type name, rendering with `to_s`, and
  resolving against a catalog or the type registry.

  Type canonicalisation splits on "::" with Ruby's `split`, which drops
  trailing empty fields, capitalises every field and joins them again; nil
  and any casing of "component" become "Class".  As written, the "component"
  test looks at the raw text, so "component::" comes out as "Component", which a
  second canonicalisation turns into "Class" (`CanonTypeAsWritten`,
  `CanonTypeAsWrittenNotIdempotent`), and `Component[x]` does not survive a
  trip through `to_s` (`ToSRoundTripFailsAsWritten`).  `New` and `SetTitle`
  model the code as written; `CanonType`, `NewCorrected` and
  `SetTitleCorrected` make the "component" test on the joined result, which
  makes canonicalisation idempotent (`CanonTypeIdempotent`) and the `to_s`
  round trip total (`ToSRoundTripCorrected`).
 */
module ResourceReference {
  import opened Wrappers
  import opened Text

  // ---------------------------------------------------------------------
  // Splitting and joining on "::"

  predicate NoDoubleColon(p: string) {
    forall i :: 0 <= i < |p| - 1 ==> !(p[i] == ':' && p[i + 1] == ':')
  }

  predicate EndsWithColon(p: string) {
    |p| > 0 && p[|p| - 1] == ':'
  }

  /** The fields a split on "::" can produce: none contains "::", and only the
      last may end with ':' (a ':' before "::" would have started the match). */
  predicate WellFormedFields(parts: seq<string>) {
    && (forall i :: 0 <= i < |parts| ==> NoDoubleColon(parts[i]))
    && (forall i :: 0 <= i < |parts| - 1 ==> !EndsWithColon(parts[i]))
  }

  /** `str.split("::")` before trailing empty fields are dropped: separators are
      matched leftmost first and do not overlap. */
  function SplitColonsAll(s: string): (r: seq<string>)
    ensures |r| >= 1
    ensures WellFormedFields(r)
    ensures r[0] <= s
    ensures |r| > 1 ==> |s| >= |r[0]| + 2 && s[|r[0]|] == ':' && s[|r[0]| + 1] == ':'
    decreases |s|
  {
    if |s| < 2 then [s]
    else if s[0] == ':' && s[1] == ':' then [""] + SplitColonsAll(s[2..])
    else
      var rest := SplitColonsAll(s[1..]);
      [[s[0]] + rest[0]] + rest[1..]
  }

  /** Ruby's `str.split("::")`. */
  function SplitColons(s: string): (r: seq<string>)
    ensures WellFormedFields(r)
    ensures |r| > 0 ==> r[|r| - 1] != ""
  {
    DropTrailingEmpty(SplitColonsAll(s))
  }

  /** `parts.join("::")`. */
  function JoinColons(parts: seq<string>): string
  {
    if |parts| == 0 then ""
    else if |parts| == 1 then parts[0]
    else parts[0] + "::" + JoinColons(parts[1..])
  }

  lemma {:induction false} SplitColonsSingle(p: string)
    requires NoDoubleColon(p)
    ensures SplitColonsAll(p) == [p]
    decreases |p|
  {
    if |p| >= 2 {
      assert !(p[0] == ':' && p[1] == ':');
      SplitColonsSingle(p[1..]);
      assert [p[0]] + p[1..] == p;
    }
  }

  lemma {:induction false} SplitColonsAfterField(p: string, rest: string)
    requires NoDoubleColon(p) && !EndsWithColon(p)
    ensures SplitColonsAll(p + "::" + rest) == [p] + SplitColonsAll(rest)
    decreases |p|
  {
    var s := p + "::" + rest;
    if |p| == 0 {
      assert s[2..] == rest;
    } else {
      assert s[1..] == p[1..] + "::" + rest;
      if |p| == 1 {
        assert p[0] != ':';
      } else {
        assert !(p[0] == ':' && p[1] == ':');
      }
      SplitColonsAfterField(p[1..], rest);
      assert [p[0]] + p[1..] == p;
    }
  }

  /** Splitting a joined list of well-formed fields gives the fields back. */
  lemma {:induction false} SplitJoinColons(parts: seq<string>)
    requires |parts| >= 1 && WellFormedFields(parts)
    ensures SplitColonsAll(JoinColons(parts)) == parts
    decreases |parts|
  {
    if |parts| == 1 {
      SplitColonsSingle(parts[0]);
    } else {
      SplitColonsAfterField(parts[0], JoinColons(parts[1..]));
      SplitJoinColons(parts[1..]);
      assert [parts[0]] + parts[1..] == parts;
    }
  }

  // ---------------------------------------------------------------------
  // Type canonicalisation

  function CapitalizeAll(parts: seq<string>): (r: seq<string>)
    ensures |r| == |parts|
    ensures forall i :: 0 <= i < |parts| ==> r[i] == Capitalize(parts[i])
  {
    seq(|parts|, i requires 0 <= i < |parts| => Capitalize(parts[i]))
  }

  /** Capitalising keeps every ':' where it was, so the fields stay well formed
      and non-empty fields stay non-empty. */
  lemma CapitalizeAllKeepsFields(parts: seq<string>)
    requires WellFormedFields(parts)
    ensures WellFormedFields(CapitalizeAll(parts))
    ensures |parts| > 0 && parts[|parts| - 1] != "" ==>
              CapitalizeAll(parts)[|parts| - 1] != ""
  {
    var caps := CapitalizeAll(parts);
    forall i | 0 <= i < |parts|
      ensures forall j :: 0 <= j < |parts[i]| ==> (caps[i][j] == ':' <==> parts[i][j] == ':')
    {
    }
  }

  /** `split("::").collect { |s| s.capitalize }.join("::")`: the "::" fields
      of the result are the input's fields, each capitalised (first character
      upper case, the rest lower case, see `Text.Capitalize`). */
  function CapitalizedFields(value: string): (r: string)
    ensures SplitColons(r) == CapitalizeAll(SplitColons(value))
    ensures SplitColons(value) == [] ==> r == ""
    ensures SplitColons(value) != [] ==> SplitColonsAll(r) == CapitalizeAll(SplitColons(value))
  {
    var parts := SplitColons(value);
    CapitalizeAllKeepsFields(parts);
    SplitColonsJoin(CapitalizeAll(parts));
    JoinColons(CapitalizeAll(parts))
  }

  /** `type=` exactly as written: the "component" test is made on the raw text;
      any other value has its "::" fields capitalised. */
  function CanonTypeAsWritten(value: Option<string>): (r: string)
    ensures value.None? ==> r == "Class"
    ensures value.Some? && Downcase(value.value) == "component" ==> r == "Class"
    ensures value.Some? && Downcase(value.value) != "component" ==>
              && SplitColons(r) == CapitalizeAll(SplitColons(value.value))
              && (SplitColons(value.value) == [] ==> r == "")
              && (SplitColons(value.value) != [] ==> SplitColonsAll(r) == CapitalizeAll(SplitColons(value.value)))
  {
    if value.None? || Downcase(value.value) == "component" then "Class"
    else CapitalizedFields(value.value)
  }

  /** `type=` with the "component" test made on the canonical form, which is
      what makes canonicalisation idempotent.  Unless the capitalised fields
      read "component" in some casing, the "::" fields of the result are the
      input's fields, each capitalised. */
  function CanonType(value: Option<string>): (r: string)
    ensures value.None? ==> r == "Class"
    ensures value.Some? && Downcase(value.value) == "component" ==> r == "Class"
    ensures value.Some? && Downcase(CapitalizedFields(value.value)) == "component" ==> r == "Class"
    ensures value.Some? && Downcase(CapitalizedFields(value.value)) != "component" ==>
              && SplitColons(r) == CapitalizeAll(SplitColons(value.value))
              && (SplitColons(value.value) == [] ==> r == "")
              && (SplitColons(value.value) != [] ==> SplitColonsAll(r) == CapitalizeAll(SplitColons(value.value)))
    ensures Downcase(r) != "component"
  {
    if value.None? then "Class"
    else
      var joined := CapitalizedFields(value.value);
      if Downcase(joined) == "component" then
        ClassIsCanonical("Class");
        "Class"
      else
        ComponentFields(value.value);
        joined
  }

  lemma ComponentFields(value: string)
    ensures Downcase(value) == "component" ==> Downcase(CapitalizedFields(value)) == "component"
  {
    if Downcase(value) != "component" {
      return;
    }
    assert NoDoubleColon(value) by {
      forall i | 0 <= i < |value| - 1
        ensures value[i] != ':'
      {
        assert LowerChar(value[i]) == "component"[i];
      }
    }
    SplitColonsSingle(value);
    assert value != "";
    var caps := Capitalize(value);
    assert CapitalizeAll([value]) == [caps];
    assert Downcase(caps) == "component" by {
      forall i | 0 <= i < |caps|
        ensures LowerChar(caps[i]) == LowerChar(value[i])
      {
      }
    }
  }

  /** A field without "::" is its own split, so canonicalising it is just
      capitalising it. */
  lemma CapitalizedSingle(p: string)
    requires p != "" && NoDoubleColon(p)
    ensures CapitalizedFields(p) == Capitalize(p)
  {
    SplitColonsSingle(p);
    assert SplitColons(p) == [p];
    assert CapitalizeAll([p]) == [Capitalize(p)];
  }

  /** "Class" is its own canonical form.  The name is passed in rather than
      written into the ensures, which keeps the literal out of every caller's
      proof context. */
  lemma ClassIsCanonical(c: string)
    requires c == "Class"
    ensures CapitalizedFields(c) == c
    ensures Downcase(c) != "component"
  {
    assert NoDoubleColon(c);
    CapitalizedSingle(c);
    assert Capitalize(c) == c;
  }

  /** `split("::")` undoes `join("::")` on the fields a split can produce. */
  lemma SplitColonsJoin(parts: seq<string>)
    requires WellFormedFields(parts)
    requires |parts| > 0 ==> parts[|parts| - 1] != ""
    ensures SplitColons(JoinColons(parts)) == parts
    ensures |parts| > 0 ==> SplitColonsAll(JoinColons(parts)) == parts
  {
    if |parts| == 0 {
      assert SplitColonsAll("") == [""];
    } else {
      SplitJoinColons(parts);
    }
  }

  lemma CapitalizeAllIdempotent(parts: seq<string>)
    ensures CapitalizeAll(CapitalizeAll(parts)) == CapitalizeAll(parts)
  {
    var caps := CapitalizeAll(parts);
    forall i | 0 <= i < |caps|
      ensures Capitalize(caps[i]) == caps[i]
    {
      CapitalizeIdempotent(parts[i]);
    }
  }

  /** Capitalising the fields of capitalised, joined fields changes nothing. */
  lemma CapitalizedFieldsStable(v: string)
    ensures CapitalizedFields(CapitalizedFields(v)) == CapitalizedFields(v)
  {
    CapitalizeAllIdempotent(SplitColons(v));
  }

  /** Canonicalising a canonical type name changes nothing. */
  lemma CanonTypeIdempotent(value: Option<string>)
    ensures CanonType(Some(CanonType(value))) == CanonType(value)
  {
    var r := CanonType(value);
    if r == "Class" {
      ClassIsCanonical(r);
    } else {
      CapitalizedFieldsStable(value.value);
    }
  }

  /** The two canonicalisations differ only where the raw text, split and
      re-joined, becomes "Component". */
  lemma CanonTypeDiffersOnlyOnComponent(value: string)
    ensures CanonType(Some(value)) != CanonTypeAsWritten(Some(value)) ==>
              Downcase(CanonTypeAsWritten(Some(value))) == "component" && CanonType(Some(value)) == "Class"
  {
  }

  /** The canonicalisation as written is not idempotent: any casing of
      "component" followed by "::" (such as "component::") becomes a
      capitalised "Component", and that becomes "Class". */
  lemma CanonTypeAsWrittenNotIdempotent(field: string)
    requires Downcase(field) == "component"
    ensures CanonTypeAsWritten(Some(field + "::")) == Capitalize(field)
    ensures Downcase(Capitalize(field)) == "component" && Capitalize(field) != "Class"
    ensures CanonTypeAsWritten(Some(CanonTypeAsWritten(Some(field + "::")))) == "Class"
    ensures CanonType(Some(field + "::")) == "Class"
  {
    var v := field + "::";
    ComponentCasingPlain(field);
    FieldBeforeColons(field);
    var cap := Capitalize(field);
    assert CapitalizeAll([field]) == [cap];
    assert CapitalizedFields(v) == cap;
    assert Downcase(v) != "component" by {
      assert |Downcase(v)| == 11;
    }
    ComponentFields(field);
    CapitalizedSingle(field);
    assert Downcase(cap) == "component";
    assert cap != "Class" by {
      assert |cap| == 9;
    }
  }

  /** A field followed by "::" splits to that field alone: the trailing empty
      field is dropped. */
  lemma FieldBeforeColons(field: string)
    requires field != "" && NoDoubleColon(field) && !EndsWithColon(field)
    ensures SplitColons(field + "::") == [field]
  {
    SplitColonsAfterField(field, "");
    assert field + "::" == field + "::" + "";
    assert SplitColonsAll("") == [""];
  }

  // ---------------------------------------------------------------------
  // References

  datatype Reference = Reference(typ: string, title: string)

  predicate IsBracket(c: char) { c == '[' || c == ']' }

  predicate NoBrackets(s: string) {
    forall i :: 0 <= i < |s| ==> !IsBracket(s[i])
  }

  /** Index of the first '[' or ']', or |s| if there is none. */
  function FirstBracket(s: string): (k: nat)
    ensures k <= |s|
    ensures NoBrackets(s[..k])
    ensures k < |s| ==> IsBracket(s[k])
  {
    if |s| == 0 then 0
    else if IsBracket(s[0]) then 0
    else
      var k := 1 + FirstBracket(s[1..]);
      assert s[..k] == [s[0]] + s[1..][..k - 1];
      k
  }

  /** The match of `/^([^\[\]]+)\[(.+)\]$/` on a single-line title: the type
      is everything before the first bracket, which must be '[', and the
      greedy title is everything between it and the final ']'. */
  function MatchReference(value: Line): Option<(string, string)>
  {
    var k := FirstBracket(value);
    if 0 < k && k + 2 < |value| && value[k] == '[' && value[|value| - 1] == ']' then
      Some((value[..k], value[k + 1..|value| - 1]))
    else None
  }

  /** When a string is `t[x]` in the sense of the regular expression. */
  predicate IsReferenceForm(value: string, t: string, x: string) {
    && value == t + "[" + x + "]"
    && |t| > 0 && NoBrackets(t)
    && |x| > 0
  }

  lemma MatchReferenceSound(value: Line)
    requires MatchReference(value).Some?
    ensures IsReferenceForm(value, MatchReference(value).value.0, MatchReference(value).value.1)
  {
    var k := FirstBracket(value);
    assert value == value[..k] + "[" + value[k + 1..|value| - 1] + "]";
  }

  lemma MatchReferenceComplete(value: Line, t: string, x: string)
    requires IsReferenceForm(value, t, x)
    ensures MatchReference(value) == Some((t, x))
  {
    var k := FirstBracket(value);
    assert value[..|t|] == t;
    assert value[|t|] == '[';
    assert k == |t|;
    assert value[k + 1..|value| - 1] == x;
  }

  /** The title pattern matches exactly the strings of the form `t[x]`, and
      then yields that t and that x. */
  lemma MatchReferenceIff(value: Line, t: string, x: string)
    ensures MatchReference(value) == Some((t, x)) <==> IsReferenceForm(value, t, x)
  {
    if MatchReference(value) == Some((t, x)) {
      MatchReferenceSound(value);
    }
    if IsReferenceForm(value, t, x) {
      MatchReferenceComplete(value, t, x);
    }
  }

  /** `initialize(type, title)`: a bracketed title sets both type and title and
      takes precedence; otherwise the title is kept and the type argument
      (possibly nil) is canonicalised with `type=` as written. */
  function New(typeArg: Option<string>, title: Line): (r: Reference)
    ensures MatchReference(title).Some? ==>
              r == Reference(CanonTypeAsWritten(Some(MatchReference(title).value.0)),
                             MatchReference(title).value.1)
    ensures MatchReference(title).None? ==> r == Reference(CanonTypeAsWritten(typeArg), title)
  {
    match MatchReference(title)
    case Some((t, x)) => Reference(CanonTypeAsWritten(Some(t)), x)
    case None => Reference(CanonTypeAsWritten(typeArg), title)
  }

  /** `title=`: a bracketed value sets type and title; any other value is
      stored verbatim and leaves the type alone. */
  function SetTitle(ref: Reference, value: Line): (r: Reference)
    ensures MatchReference(value).None? ==> r == ref.(title := value)
    ensures MatchReference(value).Some? ==> r == New(None, value)
  {
    match MatchReference(value)
    case Some((t, x)) => Reference(CanonTypeAsWritten(Some(t)), x)
    case None => ref.(title := value)
  }

  /** `New` with the corrected canonicalisation. */
  function NewCorrected(typeArg: Option<string>, title: Line): (r: Reference)
    ensures MatchReference(title).Some? ==>
              r == Reference(CanonType(Some(MatchReference(title).value.0)),
                             MatchReference(title).value.1)
    ensures MatchReference(title).None? ==> r == Reference(CanonType(typeArg), title)
  {
    match MatchReference(title)
    case Some((t, x)) => Reference(CanonType(Some(t)), x)
    case None => Reference(CanonType(typeArg), title)
  }

  /** `SetTitle` with the corrected canonicalisation. */
  function SetTitleCorrected(ref: Reference, value: Line): (r: Reference)
    ensures MatchReference(value).None? ==> r == ref.(title := value)
    ensures MatchReference(value).Some? ==> r == NewCorrected(None, value)
  {
    match MatchReference(value)
    case Some((t, x)) => Reference(CanonType(Some(t)), x)
    case None => ref.(title := value)
  }

  /** `to_s`. */
  function ToS(ref: Reference): (s: string)
    ensures |s| == |ref.typ| + |ref.title| + 2
    ensures s[..|ref.typ|] == ref.typ && s[|ref.typ|] == '['
    ensures s[|ref.typ| + 1..|s| - 1] == ref.title && s[|s| - 1] == ']'
  {
    ref.typ + "[" + ref.title + "]"
  }

  /** As written, a constructed type is stable under `type=` unless it reads
      "component" in some casing. */
  lemma NewTypeStable(typeArg: Option<string>, title: Line)
    ensures var t := New(typeArg, title).typ;
            Downcase(t) != "component" ==> CanonTypeAsWritten(Some(t)) == t
  {
    var t := New(typeArg, title).typ;
    if t == "Class" {
      ClassIsCanonical(t);
    } else {
      match MatchReference(title)
      case Some((u, x)) => CapitalizedFieldsStable(u);
      case None => CapitalizedFieldsStable(typeArg.value);
    }
  }

  /** With the corrected canonicalisation every constructed reference has a
      canonical type. */
  lemma NewCorrectedTypeIsCanonical(typeArg: Option<string>, title: Line)
    ensures CanonType(Some(NewCorrected(typeArg, title).typ)) == NewCorrected(typeArg, title).typ
  {
    match MatchReference(title)
    case Some((t, x)) => CanonTypeIdempotent(Some(t));
    case None => CanonTypeIdempotent(typeArg);
  }

  /** `to_s` of a reference with a non-empty, bracket-free, single-line type and
      a non-empty title parses back as that type and title. */
  lemma ToSParses(ref: Reference)
    requires |ref.typ| > 0 && NoBrackets(ref.typ) && '\n' !in ref.typ && |ref.title| > 0
    requires '\n' !in ref.title
    ensures '\n' !in ToS(ref)
    ensures MatchReference(ToS(ref)) == Some((ref.typ, ref.title))
  {
    var s := ToS(ref);
    assert forall i :: 0 <= i < |s| ==> s[i] != '\n' by {
      forall i | 0 <= i < |s| ensures s[i] != '\n' {
        if i < |ref.typ| {
          assert s[i] == ref.typ[i];
        } else if |ref.typ| < i < |s| - 1 {
          assert s[i] == ref.title[i - |ref.typ| - 1];
        }
      }
    }
    MatchReferenceComplete(s, ref.typ, ref.title);
  }

  /** As written, rebuilding a reference from its `to_s` with no type argument
      gives the same type and title when the type is non-empty, bracket-free
      and not a casing of "component", and the title is non-empty. */
  lemma ToSRoundTrip(typeArg: Option<string>, title: Line)
    requires var ref := New(typeArg, title);
             |ref.typ| > 0 && NoBrackets(ref.typ) && '\n' !in ref.typ && |ref.title| > 0
    requires Downcase(New(typeArg, title).typ) != "component"
    ensures '\n' !in ToS(New(typeArg, title))
    ensures New(None, ToS(New(typeArg, title))) == New(typeArg, title)
  {
    ToSParses(New(typeArg, title));
    NewTypeStable(typeArg, title);
  }

  /** As written, the round trip fails for every type that is a casing of
      "component" followed by "::": with the title "x" and the type
      "component::" the reference is `Component[x]`, and `Component[x]`
      parses back as `Class[x]`. */
  lemma ToSRoundTripFailsAsWritten(field: string, x: Line)
    requires Downcase(field) == "component" && |x| > 0 && MatchReference(x).None?
    ensures New(Some(field + "::"), x) == Reference(Capitalize(field), x)
    ensures '\n' !in ToS(New(Some(field + "::"), x))
    ensures New(None, ToS(New(Some(field + "::"), x))) == Reference("Class", x)
    ensures New(None, ToS(New(Some(field + "::"), x))) != New(Some(field + "::"), x)
  {
    CanonTypeAsWrittenNotIdempotent(field);
    ReparseComponent(Capitalize(field), x);
  }

  /** Every casing of "component" is a plain field: no bracket, no newline. */
  lemma ComponentCasingPlain(c: string)
    requires Downcase(c) == "component"
    ensures NoBrackets(c) && '\n' !in c
  {
    forall i | 0 <= i < |c|
      ensures !IsBracket(c[i]) && c[i] != '\n'
    {
      assert LowerChar(c[i]) == "component"[i];
    }
  }

  /** As written, a reference whose type is any casing of "component" parses
      back from its `to_s` as a `Class` reference with the same title. */
  lemma ReparseComponent(c: string, x: Line)
    requires Downcase(c) == "component" && |x| > 0
    ensures '\n' !in ToS(Reference(c, x))
    ensures New(None, ToS(Reference(c, x))) == Reference("Class", x)
  {
    ComponentCasingPlain(c);
    ToSParses(Reference(c, x));
  }

  /** With the corrected canonicalisation the round trip holds whenever the
      type is non-empty and bracket-free and the title is non-empty. */
  lemma ToSRoundTripCorrected(typeArg: Option<string>, title: Line)
    requires var ref := NewCorrected(typeArg, title);
             |ref.typ| > 0 && NoBrackets(ref.typ) && '\n' !in ref.typ && |ref.title| > 0
    ensures '\n' !in ToS(NewCorrected(typeArg, title))
    ensures NewCorrected(None, ToS(NewCorrected(typeArg, title))) == NewCorrected(typeArg, title)
  {
    ToSParses(NewCorrected(typeArg, title));
    NewCorrectedTypeIsCanonical(typeArg, title);
  }

  /** `builtin_type`: a type containing "::" is never builtin; otherwise the
      registry is asked for the lower-cased name. */
  function BuiltinType<R>(ref: Reference, types: map<string, map<string, R>>): (r: Option<string>)
    ensures (exists i :: 0 <= i < |ref.typ| - 1 && ref.typ[i] == ':' && ref.typ[i + 1] == ':')
            ==> r.None?
    ensures r.Some? <==> NoDoubleColon(ref.typ) && Downcase(ref.typ) in types
    ensures r.Some? ==> r.value == Downcase(ref.typ)
  {
    if !NoDoubleColon(ref.typ) then None
    else if Downcase(ref.typ) in types then Some(Downcase(ref.typ))
    else None
  }

  /** `resolve`: with a catalog, a lookup of `to_s` in it; without one, the
      builtin type's instance with this title, or else the component named by
      `to_s`. */
  function Resolve<R>(ref: Reference, catalog: Option<map<string, R>>,
                      types: map<string, map<string, R>>, components: map<string, R>)
    : (r: Option<R>)
    ensures catalog.Some? ==>
              r == (if ToS(ref) in catalog.value then Some(catalog.value[ToS(ref)]) else None)
    ensures catalog.None? && NoDoubleColon(ref.typ) && Downcase(ref.typ) in types ==>
              var instances := types[Downcase(ref.typ)];
              r == (if ref.title in instances then Some(instances[ref.title]) else None)
    ensures catalog.None? && !(NoDoubleColon(ref.typ) && Downcase(ref.typ) in types) ==>
              r == (if ToS(ref) in components then Some(components[ToS(ref)]) else None)
  {
    match catalog
    case Some(resources) =>
      if ToS(ref) in resources then Some(resources[ToS(ref)]) else None
    case None =>
      match BuiltinType(ref, types)
      case Some(t) =>
        var instances := types[t];
        if ref.title in instances then Some(instances[ref.title]) else None
      case None =>
        if ToS(ref) in components then Some(components[ToS(ref)]) else None
  }
}
