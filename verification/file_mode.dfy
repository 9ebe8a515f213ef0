/**
  The `mode` property of the `file` resource type: munging textual modes into
  integers, directory read-implies-execute masking, rendering values as
  octal text, retrieving the current mode, the symlink in-sync override, and
  the `chmod` step.

  The filesystem is an input: the result of `stat` (absent, or a kind and a
  mode), whether the path is a directory, and the outcome of `chmod`.
 */
module FileMode {
  import opened Wrappers
  import opened Text
  import opened Numerals

  /** The values a mode property holds, as a closed variant: an integer mode,
      a symbol such as `:absent`, or an unconverted string. */
  datatype ModeValue = Num(n: nat) | Sym(name: string) | Str(s: Line)

  const Absent: ModeValue := Sym("absent")

  datatype FileKind = RegularFile | Directory | Link | OtherKind

  datatype Stat = Stat(kind: FileKind, mode: nat)

  /** The `links` parameter of the file resource. */
  datatype Links = Follow | Manage | Ignore

  datatype Event = FileChanged

  /** `is_to_s` and `should_to_s` (which share one body): integers print in
      octal, symbols print as themselves, anything else is a developer error. */
  function ModeToS(v: ModeValue): (r: Result<string>)
    ensures v.Num? ==> r.Ok? && AllOctalDigits(r.value) && Canonical(r.value)
                       && OctalValue(r.value) == v.n
    ensures v.Sym? ==> r == Ok(v.name)
    ensures v.Str? ==> r.Err? && r.error.kind == DevError
  {
    match v
    case Num(n) => OctalTextValue(n); Ok(OctalText(n))
    case Sym(name) => Ok(name)
    case Str(s) => Err(Error(DevError, "Invalid value for mode: " + s))
  }

  /** `munge`: a string must be all digits; it is given a leading `0` if it
      lacks one and read with `Integer()`, so it is octal.  Other values pass
      through unchanged. */
  function Munge(v: ModeValue): (r: Result<ModeValue>)
    ensures !v.Str? ==> r == Ok(v)
    ensures v.Str? && !AllDigits(v.s) ==> r.Err? && r.error.kind == PuppetError
    ensures v.Str? && AllDigits(v.s) && !AllOctalDigits(v.s) ==>
              r.Err? && r.error.kind == DevError
    ensures v.Str? && AllDigits(v.s) && AllOctalDigits(v.s) ==>
              r == Ok(Num(OctalValue(v.s)))
  {
    match v
    case Str(s) =>
      if !AllDigits(s) then
        Err(Error(PuppetError, "File modes can only be numbers, not " + s))
      else
        var text := if s[0] == '0' then s else "0" + s;
        assert AllDigits(text);
        (match IntegerOfDigits(text)
        case Ok(n) =>
          assert AllOctalDigits(s) by {
            if s[0] != '0' {
              assert forall i :: 0 <= i < |s| ==> s[i] == text[i + 1];
            }
          }
          OctalLeadingZero(s);
          assert n == OctalValue(text) by {
            if |text| == 1 {
              assert text == "0";
              assert DecimalValue("0") == 0 by { assert "0"[..0] == ""; }
              assert OctalValue("0") == 0 by { assert "0"[..0] == ""; }
            }
          }
          Ok(Num(n))
        case Err(_) => Err(Error(DevError, "Could not convert " + text + " to integer")))
    case _ => Ok(v)
  }

  /** The permission bits of a mode form three octal digits, one per role;
      within a digit 4 is read, 2 is write and 1 is execute (search, on a
      directory).  So `value & 0400` tests the owner digit's 4, `value |= 0100`
      sets the owner digit's 1, and likewise 040/010 for group, 04/01 for other. */
  function Owner(v: nat): nat { v / 64 % 8 }

  function Group(v: nat): nat { v / 8 % 8 }

  function Other(v: nat): nat { v % 8 }

  /** Everything above the three role digits (setuid, setgid, sticky, ...). */
  function Upper(v: nat): nat { v / 512 }

  function Compose(upper: nat, owner: nat, group: nat, other: nat): (v: nat)
    requires owner < 8 && group < 8 && other < 8
    ensures Upper(v) == upper && Owner(v) == owner && Group(v) == group && Other(v) == other
  {
    var v := upper * 512 + owner * 64 + group * 8 + other;
    DivMod8(v, upper * 64 + owner * 8 + group, other);
    DivMod8(v / 8, upper * 8 + owner, group);
    DivMod64(v, upper * 8 + owner, group * 8 + other);
    DivMod8(v / 64, upper, owner);
    DivMod512(v, upper, owner * 64 + group * 8 + other);
    v
  }

  lemma DivMod8(v: int, q: int, r: int)
    requires 0 <= r < 8 && v == q * 8 + r
    ensures v / 8 == q && v % 8 == r
  {
  }

  lemma DivMod64(v: int, q: int, r: int)
    requires 0 <= r < 64 && v == q * 64 + r
    ensures v / 64 == q && v % 64 == r
  {
  }

  lemma DivMod512(v: int, q: int, r: int)
    requires 0 <= r < 512 && v == q * 512 + r
    ensures v / 512 == q && v % 512 == r
  {
  }

  lemma Decompose(v: nat)
    ensures v == Upper(v) * 512 + Owner(v) * 64 + Group(v) * 8 + Other(v)
  {
    DivMod8(v / 8, v / 64, Group(v));
    DivMod8(v / 64, v / 512, Owner(v));
    DivMod64(v, v / 64, v % 64);
    DivMod512(v, v / 512, v % 512);
  }

  /** One role's digit under `dirmask`: when its read bit is set, set its
      execute bit. */
  function SearchIfRead(d: nat): (r: nat)
    requires d < 8
    ensures r < 8
  {
    if d >= 4 && d % 2 == 0 then d + 1 else d
  }

  /** `dirmask`: on a directory, each of owner, group and other that may read
      may also search.  Anything else is returned unchanged. */
  function Dirmask(value: nat, isDirectory: bool): (r: nat)
    ensures !isDirectory ==> r == value
    ensures Upper(r) == Upper(value)
    ensures isDirectory ==> Owner(r) == SearchIfRead(Owner(value))
                            && Group(r) == SearchIfRead(Group(value))
                            && Other(r) == SearchIfRead(Other(value))
  {
    if !isDirectory then value
    else Compose(Upper(value), SearchIfRead(Owner(value)), SearchIfRead(Group(value)),
                 SearchIfRead(Other(value)))
  }

  /** In one role digit, `r` has every bit of `d` and at most the execute bit
      besides. */
  predicate AddsAtMostExecute(d: nat, r: nat) {
    r == d || (r == d + 1 && d % 2 == 0)
  }

  predicate ReadImpliesSearch(d: nat) {
    d % 8 >= 4 ==> d % 2 == 1
  }

  predicate AllRolesSearchable(v: nat) {
    ReadImpliesSearch(Owner(v)) && ReadImpliesSearch(Group(v)) && ReadImpliesSearch(Other(v))
  }

  /** On a directory the result is a bitwise superset of the input that adds
      only the bits 0100, 010 and 01, every role that can read can search, and
      a mode that already obeys that rule is left as it is. */
  lemma DirmaskAddsOnlySearchBits(value: nat)
    ensures var r := Dirmask(value, true);
            && Upper(r) == Upper(value)
            && AddsAtMostExecute(Owner(value), Owner(r))
            && AddsAtMostExecute(Group(value), Group(r))
            && AddsAtMostExecute(Other(value), Other(r))
            && AllRolesSearchable(r)
    ensures AllRolesSearchable(value) ==> Dirmask(value, true) == value
  {
    Decompose(value);
  }

  lemma DirmaskIdempotent(value: nat, isDirectory: bool)
    ensures Dirmask(Dirmask(value, isDirectory), isDirectory) == Dirmask(value, isDirectory)
  {
    if isDirectory {
      DirmaskAddsOnlySearchBits(value);
      DirmaskAddsOnlySearchBits(Dirmask(value, true));
    }
  }

  /** 0644 (420) on a directory becomes 0755 (493). */
  lemma DirmaskExample()
    ensures Dirmask(420, true) == 493
  {
    var mode := 420;
    assert mode == Compose(0, 6, 4, 4);
    assert SearchIfRead(6) == 7 && SearchIfRead(4) == 5;
    var r := Dirmask(mode, true);
    assert Owner(r) == 7 && Group(r) == 5 && Other(r) == 5 && Upper(r) == 0;
    Decompose(r);
  }

  /** `dirmask` applied to one `should` value: the bitwise operators only
      exist on integers. */
  function DirmaskValue(v: ModeValue, isDirectory: bool): (r: Result<ModeValue>)
    ensures v.Num? ==> r == Ok(Num(Dirmask(v.n, isDirectory)))
    ensures !v.Num? ==> (r.Ok? <==> !isDirectory)
    ensures r.Ok? && !v.Num? ==> r.value == v
  {
    match v
    case Num(n) => Ok(Num(Dirmask(n, isDirectory)))
    case _ =>
      if isDirectory then Err(Error(NoMethodError, "undefined method `&' for a non-integer mode"))
      else Ok(v)
  }

  function DirmaskAll(should: seq<ModeValue>, isDirectory: bool): (r: Result<seq<ModeValue>>)
    ensures r.Ok? ==> |r.value| == |should|
    ensures r.Ok? ==> forall i :: 0 <= i < |should| ==>
                        DirmaskValue(should[i], isDirectory) == Ok(r.value[i])
    ensures r.Err? ==> exists i :: 0 <= i < |should| && DirmaskValue(should[i], isDirectory).Err?
  {
    if |should| == 0 then Ok([])
    else
      match DirmaskValue(should[0], isDirectory)
      case Err(e) => Err(e)
      case Ok(v) =>
        match DirmaskAll(should[1..], isDirectory)
        case Err(e) => Err(e)
        case Ok(vs) => Ok([v] + vs)
  }

  datatype Retrieved = Retrieved(current: ModeValue, should: Option<seq<ModeValue>>)

  /** `retrieve`: an existing file reports its permission bits (`& 07777`) and,
      unless the property is fixed, re-masks the `should` values; a missing
      file reports `:absent` and leaves `should` alone. */
  function Retrieve(stat: Option<Stat>, should: Option<seq<ModeValue>>, fixed: bool, isDirectory: bool)
    : (r: Result<Retrieved>)
    ensures stat.None? ==> r == Ok(Retrieved(Absent, should))
    ensures stat.Some? && r.Ok? ==> r.value.current == Num(stat.value.mode % 4096)
    ensures r.Ok? && r.value.current.Num? ==> r.value.current.n < 4096
    ensures (fixed || should.None?) ==> r.Ok? && r.value.should == should
    ensures stat.Some? && !fixed && should.Some? ==>
              && (r.Ok? <==> DirmaskAll(should.value, isDirectory).Ok?)
              && (r.Ok? ==> r.value.should == Some(DirmaskAll(should.value, isDirectory).value))
  {
    match stat
    case None => Ok(Retrieved(Absent, should))
    case Some(st) =>
      if fixed || should.None? then Ok(Retrieved(Num(st.mode % 4096), should))
      else
        match DirmaskAll(should.value, isDirectory)
        case Err(e) => Err(e)
        case Ok(masked) => Ok(Retrieved(Num(st.mode % 4096), Some(masked)))
  }

  /** Re-masking at every retrieve changes nothing after the first time. */
  lemma RetrieveRemaskHarmless(stat: Stat, should: seq<ModeValue>, isDirectory: bool)
    requires forall i :: 0 <= i < |should| ==> should[i].Num?
    ensures Retrieve(Some(stat), Some(should), false, isDirectory).Ok?
    ensures var s1 := Retrieve(Some(stat), Some(should), false, isDirectory).value.should.value;
            Retrieve(Some(stat), Some(s1), false, isDirectory).value.should == Some(s1)
  {
    var r1 := DirmaskAll(should, isDirectory);
    assert r1.Ok?;
    var s1 := r1.value;
    forall i | 0 <= i < |s1|
      ensures DirmaskValue(s1[i], isDirectory) == Ok(s1[i])
    {
      DirmaskIdempotent(should[i].n, isDirectory);
    }
    var r2 := DirmaskAll(s1, isDirectory);
    assert r2.Ok?;
    assert r2.value == s1;
  }

  /** `insync?`: a symlink whose links are not followed is always in sync;
      otherwise the generic property comparison decides. */
  function InSync(stat: Option<Stat>, links: Links, current: ModeValue,
                  parentInSync: ModeValue -> bool): (r: bool)
    ensures stat.Some? && stat.value.kind == Link && links != Follow ==> r
    ensures !(stat.Some? && stat.value.kind == Link && links != Follow) ==>
              r == parentInSync(current)
  {
    if stat.Some? && stat.value.kind == Link && links != Follow then true
    else parentInSync(current)
  }

  /** The symlink override ignores the current value entirely. */
  lemma UnfollowedLinkIgnoresCurrent(mode: nat, links: Links, a: ModeValue, b: ModeValue,
                                     parentInSync: ModeValue -> bool)
    requires links != Follow
    ensures InSync(Some(Stat(Link, mode)), links, a, parentInSync)
            == InSync(Some(Stat(Link, mode)), links, b, parentInSync)
  {
  }

  /** `sync`: nothing to do on a missing file or for an `:absent` mode;
      otherwise `chmod`, whose failure becomes a Puppet::Error naming the path.
      `cached` is the remembered stat, `current` a new one; `chmod` is the
      operating system's answer (None for success, else its message). */
  function Sync(cached: Option<Stat>, current: Option<Stat>, should: ModeValue, path: string,
                chmod: (ModeValue, string) -> Option<string>): (r: Result<Option<Event>>)
    ensures cached.None? && current.None? ==> r == Ok(None)
    ensures should == Absent ==> r == Ok(None)
    ensures r == Ok(Some(FileChanged)) <==>
              (cached.Some? || current.Some?) && should != Absent && chmod(should, path).None?
    ensures r == Ok(None) <==> (cached.None? && current.None?) || should == Absent
    ensures r.Err? <==>
              (cached.Some? || current.Some?) && should != Absent && chmod(should, path).Some?
    ensures r.Err? ==> r.error.kind == PuppetError
                       && "failed to chmod " + path <= r.error.message
  {
    if cached.None? && current.None? then Ok(None)
    else if should == Absent then Ok(None)
    else
      match chmod(should, path)
      case None => Ok(Some(FileChanged))
      case Some(detail) =>
        var msg := "failed to chmod " + path + ": " + detail;
        Err(Error(PuppetError, msg))
  }

  /** Printing an integer mode and munging the text gives the mode back. */
  lemma {:induction false} MungeShouldToS(n: nat)
    ensures ModeToS(Num(n)).Ok?
    ensures Munge(Str(ModeToS(Num(n)).value)) == Ok(Num(n))
  {
    var s := OctalText(n);
    OctalTextValue(n);
    assert Munge(Str(s)) == Ok(Num(OctalValue(s)));
  }

  /** The textual mode "644" is the integer 0644. */
  lemma MungeExample()
    ensures Munge(Str("644")) == Ok(Num(420))
    ensures Munge(Str("0755")) == Ok(Num(493))
    ensures Munge(Str("rwx")).Err?
    ensures Munge(Str("0855")).Err?
  {
    assert AllDigits("644") && AllOctalDigits("644");
    assert OctalValue("644") == 420 by {
      assert "644"[..2] == "64";
      assert "64"[..1] == "6";
      assert "6"[..0] == "";
    }
    assert AllDigits("0755") && AllOctalDigits("0755");
    assert OctalValue("0755") == 493 by {
      assert "0755"[..3] == "075";
      assert "075"[..2] == "07";
      assert "07"[..1] == "0";
      assert "0"[..0] == "";
    }
    assert !AllDigits("rwx") by { assert !IsDigit("rwx"[0]); }
    assert AllDigits("0855") && !AllOctalDigits("0855") by { assert !IsOctalDigit("0855"[1]); }
  }
}
