/**
 Versions, their precedence and the ranges of the advisory hold guard, on the text they come in.

 Integers and whitespace are the ASCII ones; a text that the guard cannot parse gives `None`.
 */
module Semver {
  import opened Text
  import opened Order
  import opened Options

  datatype Version = Version(major: nat, minor: nat, patch: nat, pre: seq<string>)

  // ---------------------------------------------------------------------------------------------
  // Parsing
  // ---------------------------------------------------------------------------------------------

  /** The text without its build metadata. */
  function Base(v: string): string {
    v[..Find(v, '+')]
  }

  predicate IsSpace(c: char) {
    c == ' ' || '\t' <= c <= '\r'
  }

  lemma SpacesAre(c: char)
    ensures IsSpace(c) <==> c in {' ', '\t', '\n', '\U{0B}', '\U{0C}', '\r'}
  {
  }

  function Strip(s: string): (t: string)
    ensures t != "" ==> !IsSpace(t[0]) && !IsSpace(t[|t| - 1])
    decreases |s|
  {
    if s == "" then s
    else if IsSpace(s[0]) then Strip(s[1..])
    else if IsSpace(s[|s| - 1]) then Strip(s[..|s| - 1])
    else s
  }

  ghost predicate Blank(s: string) {
    forall i :: 0 <= i < |s| ==> IsSpace(s[i])
  }

  lemma {:induction false} StripOfPadded(before: string, core: string, after: string)
    requires Blank(before) && Blank(after) && core != "" && !IsSpace(core[0]) && !IsSpace(core[|core| - 1])
    ensures Strip(before + core + after) == core
    decreases |before| + |after|
  {
    var s := before + core + after;
    if before != "" {
      assert s[1..] == before[1..] + core + after;
      StripOfPadded(before[1..], core, after);
    } else if after != "" {
      assert s[..|s| - 1] == before + core + after[..|after| - 1];
      StripOfPadded(before, core, after[..|after| - 1]);
    } else {
      assert s == core;
    }
  }

  lemma {:induction false} StripOfBlank(s: string)
    requires Blank(s)
    ensures Strip(s) == ""
  {
    if s != "" {
      StripOfBlank(s[1..]);
    }
  }

  /** Digits, with single underscores between them. */
  predicate Underscored(s: string) {
    && s != "" && IsDigit(s[0]) && IsDigit(s[|s| - 1])
    && (forall i :: 0 <= i < |s| ==> IsDigit(s[i]) || s[i] == '_')
    && (forall i :: 0 < i < |s| ==> IsDigit(s[i]) || IsDigit(s[i - 1]))
  }

  function WithoutUnderscores(s: string): (t: string)
    requires forall i :: 0 <= i < |s| ==> IsDigit(s[i]) || s[i] == '_'
    ensures AllDigits(t) && (AllDigits(s) ==> t == s)
  {
    if s == "" then ""
    else
      assert [s[0]] + s[1..] == s;
      (if s[0] == '_' then "" else [s[0]]) + WithoutUnderscores(s[1..])
  }

  /** The number that a part of the core is read as, between blanks; it cannot hold a sign. */
  function ReadInt(s: string): Option<nat> {
    var t := Strip(s);
    if Underscored(t) then Some(Value(WithoutUnderscores(t))) else None
  }

  lemma JoinHead(a: string, b: string, c: string)
    ensures a + (b + c) == (a + b) + c
  {
  }

  lemma {:induction false} UnderscoresDoNotCount(a: string, b: string)
    requires forall i :: 0 <= i < |a| ==> IsDigit(a[i]) || a[i] == '_'
    requires forall i :: 0 <= i < |b| ==> IsDigit(b[i]) || b[i] == '_'
    ensures WithoutUnderscores(a + "_" + b) == WithoutUnderscores(a) + WithoutUnderscores(b)
  {
    var s := a + "_" + b;
    if a == "" {
      assert s[1..] == b;
    } else {
      var head, rest := if a[0] == '_' then "" else [a[0]], a[1..];
      UnderscoresDoNotCount(rest, b);
      assert s[1..] == rest + "_" + b && s[0] == a[0];
      JoinHead(head, WithoutUnderscores(rest), WithoutUnderscores(b));
    }
  }

  /** Exactly which texts are read as numbers, and as which. */
  lemma ReadIntIff(before: string, t: string, after: string)
    requires Blank(before) && Blank(after) && (t != "" ==> !IsSpace(t[0]) && !IsSpace(t[|t| - 1]))
    ensures ReadInt(before + t + after).Some?
       <==> && t != "" && IsDigit(t[0]) && IsDigit(t[|t| - 1])
            && (forall i :: 0 <= i < |t| ==> IsDigit(t[i]) || t[i] == '_')
            && (forall i :: 0 < i < |t| ==> t[i - 1] != '_' || t[i] != '_')
    ensures ReadInt(before + t + after).Some? ==>
              && (forall i :: 0 <= i < |t| ==> IsDigit(t[i]) || t[i] == '_')
              && ReadInt(before + t + after).value == Value(WithoutUnderscores(t))
  {
    if t == "" {
      StripOfBlank(before + t + after);
    } else {
      StripOfPadded(before, t, after);
    }
  }

  lemma ReadIntOfDecimal(n: nat)
    ensures ReadInt(Decimal(n)) == Some(n)
  {
    var s := Decimal(n);
    StripOfPadded("", s, "");
    assert "" + s + "" == s;
    ValueOfDecimal(n);
  }

  predicate IsNumber(s: string) {
    s != "" && AllDigits(s)
  }

  function ParseVersion(v: string): Option<Version> {
    ParseBase(Base(v))
  }

  function ParseBase(base: string): Option<Version> {
    var i := Find(base, '-');
    ParseParts(Split(base[..i], '.'), if i < |base| then base[i + 1..] else "")
  }

  function ParseParts(core: seq<string>, pre: string): Option<Version> {
    if |core| != 3 then None
    else
      var major, minor, patch := ReadInt(core[0]), ReadInt(core[1]), ReadInt(core[2]);
      if major.None? || minor.None? || patch.None? then None
      else Some(Version(major.value, minor.value, patch.value, if pre == "" then [] else Split(pre, '.')))
  }

  predicate IdentifierChar(c: char) {
    IsDigit(c) || 'A' <= c <= 'Z' || 'a' <= c <= 'z' || c == '-'
  }

  /** The alphabet of the standard in ASCII: digits, capital and small letters, and the hyphen. */
  lemma IdentifierChars(c: char)
    ensures IdentifierChar(c)
       <==> var n := c as int; 48 <= n <= 57 || 65 <= n <= 90 || 97 <= n <= 122 || n == 45
  {
  }

  /** A pre-release identifier as the standard allows it. */
  ghost predicate WellFormedId(id: string) {
    id != "" && (forall i :: 0 <= i < |id| ==> IdentifierChar(id[i])) && (AllDigits(id) ==> IsDecimal(id))
  }

  ghost predicate WellFormed(v: Version) {
    forall i :: 0 <= i < |v.pre| ==> WellFormedId(v.pre[i])
  }

  function Core(v: Version): seq<string> {
    [Decimal(v.major), Decimal(v.minor), Decimal(v.patch)]
  }

  /** A version as the standard writes it, without build metadata. */
  function Print(v: Version): string {
    Join(Core(v), '.') + (if v.pre == [] then "" else "-" + Join(v.pre, '.'))
  }

  /** `text` is `v`, with or without build metadata. */
  ghost predicate Writes(text: string, v: Version) {
    WellFormed(v) && (text == Print(v) || exists build :: text == Print(v) + "+" + build)
  }

  /** Which versions are well-formed: no empty identifier, no character outside the alphabet, no leading zero. */
  lemma WellFormedMeans(v: Version)
    ensures WellFormed(v)
       <==> forall id :: id in v.pre ==>
              && id != "" && (forall i :: 0 <= i < |id| ==> IdentifierChar(id[i]))
              && ((forall i :: 0 <= i < |id| ==> '0' <= id[i] <= '9') ==> id == "0" || id[0] != '0')
  {
    hide IdentifierChar;
  }

  /** Every well-formed version is written, with any build metadata or none. */
  lemma VersionsAreWritten(v: Version, build: string)
    requires WellFormed(v)
    ensures Writes(Print(v), v) && Writes(Print(v) + "+" + build, v)
    ensures Print(v) == Decimal(v.major) + "." + Decimal(v.minor) + "." + Decimal(v.patch)
                        + if v.pre == [] then "" else "-" + Join(v.pre, '.')
  {
    assert Core(v)[1..] == [Decimal(v.minor), Decimal(v.patch)] && Core(v)[1..][1..] == [Decimal(v.patch)];
    assert Join(Core(v)[1..], '.') == Decimal(v.minor) + "." + Decimal(v.patch);
    assert Join(Core(v), '.') == Decimal(v.major) + "." + Decimal(v.minor) + "." + Decimal(v.patch);
  }

  lemma {:induction false} JoinAvoids(parts: seq<string>, sep: char, c: char)
    requires parts != [] && c != sep && forall k :: 0 <= k < |parts| ==> c !in parts[k]
    ensures c !in Join(parts, sep)
  {
    if |parts| > 1 {
      JoinAvoids(parts[1..], sep, c);
    }
  }

  lemma DigitsAvoid(s: string, c: char)
    requires AllDigits(s) && !IsDigit(c)
    ensures c !in s
  {
  }

  lemma IdentifierAvoids(s: string, c: char)
    requires WellFormedId(s) && !IdentifierChar(c)
    ensures c !in s
  {
  }

  /** The parts of a printed version. */
  lemma PrintedParts(v: Version)
    requires WellFormed(v)
    ensures '+' !in Print(v) && '-' !in Join(Core(v), '.')
    ensures Split(Join(Core(v), '.'), '.') == Core(v)
    ensures v.pre != [] ==> Join(v.pre, '.') != "" && Split(Join(v.pre, '.'), '.') == v.pre
  {
    forall k, c | 0 <= k < 3 && !IsDigit(c)
      ensures c !in Core(v)[k]
    {
      DigitsAvoid(Core(v)[k], c);
    }
    JoinAvoids(Core(v), '.', '+');
    JoinAvoids(Core(v), '.', '-');
    SplitOfJoin(Core(v), '.');
    if v.pre != [] {
      forall k, c | 0 <= k < |v.pre| && !IdentifierChar(c)
        ensures c !in v.pre[k]
      {
        IdentifierAvoids(v.pre[k], c);
      }
      JoinAvoids(v.pre, '.', '+');
      SplitOfJoin(v.pre, '.');
    }
  }

  lemma BaseOfWritten(text: string, v: Version)
    requires Writes(text, v)
    ensures Base(text) == Print(v)
  {
    PrintedParts(v);
    hide Print;
    FindAt(text, '+', |Print(v)|);
  }

  function PreText(v: Version): string {
    if v.pre == [] then "" else Join(v.pre, '.')
  }

  /** What any text parses to, from its parts; every text has such parts. */
  lemma ParseOfParts(core: seq<string>, dashed: bool, pre: string, plus: bool, build: string)
    requires core != [] && '+' !in pre
    requires forall k :: 0 <= k < |core| ==> '.' !in core[k] && '-' !in core[k] && '+' !in core[k]
    ensures ParseVersion(Join(core, '.') + (if dashed then "-" + pre else "") + (if plus then "+" + build else ""))
         == if |core| != 3 || ReadInt(core[0]).None? || ReadInt(core[1]).None? || ReadInt(core[2]).None? then None
            else Some(Version(ReadInt(core[0]).value, ReadInt(core[1]).value, ReadInt(core[2]).value,
                              if dashed && pre != "" then Split(pre, '.') else []))
  {
    hide Join, ReadInt, Split, Find;
    var joined := Join(core, '.');
    var base := joined + if dashed then "-" + pre else "";
    var text := base + if plus then "+" + build else "";
    JoinAvoids(core, '.', '+');
    JoinAvoids(core, '.', '-');
    SplitOfJoin(core, '.');
    assert text[..|base|] == base && base[..|joined|] == joined;
    FindAt(text, '+', |base|);
    FindAt(base, '-', |joined|);
    assert dashed ==> base[|joined| + 1..] == pre;
    assert text == joined + (if dashed then "-" + pre else "") + (if plus then "+" + build else "");
  }

  lemma PartsParse(v: Version)
    requires WellFormed(v)
    ensures ParseParts(Core(v), PreText(v)) == Some(v)
  {
    PrintedParts(v);
    ReadIntOfDecimal(v.major);
    ReadIntOfDecimal(v.minor);
    ReadIntOfDecimal(v.patch);
    hide Join, Split, Decimal, ReadInt;
  }

  /** Where the core of a printed version ends. */
  lemma DashAfterCore(v: Version)
    requires WellFormed(v)
    ensures var base, i := Print(v), Find(Print(v), '-');
            && Split(base[..i], '.') == Core(v)
            && (if i < |base| then base[i + 1..] else "") == PreText(v)
  {
    PrintedParts(v);
    hide Join, Core, Split;
    var base, core := Print(v), Join(Core(v), '.');
    assert base[..|core|] == core;
    FindAt(base, '-', |core|);
  }

  lemma ParsePrinted(v: Version)
    requires WellFormed(v)
    ensures ParseBase(Print(v)) == Some(v)
  {
    PartsParse(v);
    DashAfterCore(v);
    hide Find, Split, ParseParts, Print, PreText, Core;
  }

  /** Parsing reads back every well-formed version and ignores its build metadata. */
  lemma ParseOfWritten(text: string, v: Version)
    requires Writes(text, v)
    ensures ParseVersion(text) == Some(v)
  {
    BaseOfWritten(text, v);
    ParsePrinted(v);
    hide Base, Print, ParseBase;
  }

  // ---------------------------------------------------------------------------------------------
  // Precedence as the guard computes it
  // ---------------------------------------------------------------------------------------------

  /** What an identifier is compared by. */
  datatype Key = Numeric(n: nat) | Alphanumeric(s: string)

  datatype Rank = Rank(major: nat, minor: nat, patch: nat, release: nat, ids: seq<Key>)

  function KeyOf(id: string): Key {
    if IsNumber(id) then Numeric(Value(id)) else Alphanumeric(id)
  }

  /** What an identifier of any kind, well-formed or not, is compared as. */
  lemma KeyMeans(id: string)
    ensures KeyOf(id) == if id != "" && forall i :: 0 <= i < |id| ==> '0' <= id[i] <= '9' then Numeric(Value(id))
                         else Alphanumeric(id)
  {
  }

  function Precedence(v: Version): Rank {
    Rank(v.major, v.minor, v.patch, if v.pre == [] then 1 else 0,
         seq(|v.pre|, i requires 0 <= i < |v.pre| => KeyOf(v.pre[i])))
  }

  /** Tuples compare by their first difference: the kind, then the number or the text. */
  predicate KeyLess(a: Key, b: Key) {
    match (a, b)
    case (Numeric(m), Numeric(n)) => m < n
    case (Numeric(_), Alphanumeric(_)) => true
    case (Alphanumeric(_), Numeric(_)) => false
    case (Alphanumeric(s), Alphanumeric(t)) => Lex(CharLess, s, t)
  }

  predicate RankLess(a: Rank, b: Rank) {
    if a.major != b.major then a.major < b.major
    else if a.minor != b.minor then a.minor < b.minor
    else if a.patch != b.patch then a.patch < b.patch
    else if a.release != b.release then a.release < b.release
    else Lex(KeyLess, a.ids, b.ids)
  }

  lemma KeysAreOrdered()
    ensures StrictTotal(KeyLess)
  {
    assert StrictTotal(CharLess);
    forall a: Key
      ensures !KeyLess(a, a)
    {
      if a.Alphanumeric? {
        LexIrreflexive(CharLess, a.s);
      }
    }
    forall a, b, c | KeyLess(a, b) && KeyLess(b, c)
      ensures KeyLess(a, c)
    {
      if a.Alphanumeric? {
        LexTransitive(CharLess, a.s, b.s, c.s);
      }
    }
    forall a: Key, b: Key | a != b
      ensures KeyLess(a, b) || KeyLess(b, a)
    {
      if a.Alphanumeric? && b.Alphanumeric? {
        LexConnected(CharLess, a.s, b.s);
      }
    }
  }

  /** Precedence is a strict total order. */
  lemma RanksAreOrdered()
    ensures StrictTotal(RankLess)
  {
    KeysAreOrdered();
    forall a: Rank
      ensures !RankLess(a, a)
    {
      LexIrreflexive(KeyLess, a.ids);
    }
    forall a, b, c | RankLess(a, b) && RankLess(b, c)
      ensures RankLess(a, c)
    {
      if a.major == b.major == c.major && a.minor == b.minor == c.minor && a.patch == b.patch == c.patch
         && a.release == b.release == c.release {
        LexTransitive(KeyLess, a.ids, b.ids, c.ids);
      }
    }
    forall a: Rank, b: Rank | a != b
      ensures RankLess(a, b) || RankLess(b, a)
    {
      if a.ids != b.ids {
        LexConnected(KeyLess, a.ids, b.ids);
      }
    }
  }

  // ---------------------------------------------------------------------------------------------
  // Precedence as section 11 of Semantic Versioning 2.0.0 defines it
  // ---------------------------------------------------------------------------------------------

  /** 11.4.1 to 11.4.3: numbers numerically, others in ASCII order, numbers below others. */
  ghost predicate IdLower(a: string, b: string) {
    if AllDigits(a) && AllDigits(b) then Value(a) < Value(b)
    else if AllDigits(a) || AllDigits(b) then AllDigits(a)
    else exists i: nat :: i <= |a| && i < |b| && a[..i] == b[..i] && (i == |a| || a[i] < b[i])
  }

  /** 11.4 and 11.4.4: the first difference from the left decides, and without one the longer list is higher. */
  ghost predicate PreLower(a: seq<string>, b: seq<string>) {
    exists i: nat :: i <= |a| && i <= |b| && a[..i] == b[..i]
      && (if i == |a| || i == |b| then |a| < |b| else a[i] != b[i] && IdLower(a[i], b[i]))
  }

  /** 11.2 to 11.4. */
  ghost predicate Lower(a: Version, b: Version) {
    || a.major < b.major
    || (a.major == b.major && a.minor < b.minor)
    || (a.major == b.major && a.minor == b.minor && a.patch < b.patch)
    || (a.major == b.major && a.minor == b.minor && a.patch == b.patch
        && (if a.pre == [] then false else if b.pre == [] then true else PreLower(a.pre, b.pre)))
  }

  /** On well-formed identifiers the comparison keys lose nothing. */
  lemma KeyOfInjective(a: string, b: string)
    requires WellFormedId(a) && WellFormedId(b)
    ensures KeyOf(a) == KeyOf(b) <==> a == b
  {
    if KeyOf(a) == KeyOf(b) && IsNumber(a) {
      DecimalOfValue(a);
      DecimalOfValue(b);
    }
  }

  lemma KeyLessIsIdLower(a: string, b: string)
    requires WellFormedId(a) && WellFormedId(b)
    ensures KeyLess(KeyOf(a), KeyOf(b)) <==> IdLower(a, b)
  {
    LexIsFirstDifference(CharLess, a, b);
    forall i: nat
      ensures FirstDifference(CharLess, a, b, i)
         <==> i <= |a| && i < |b| && a[..i] == b[..i] && (i == |a| || a[i] < b[i])
    {
    }
  }

  lemma KeysOfPrefix(a: Version, b: Version, i: nat)
    requires WellFormed(a) && WellFormed(b) && i <= |a.pre| && i <= |b.pre|
    ensures Precedence(a).ids[..i] == Precedence(b).ids[..i] <==> a.pre[..i] == b.pre[..i]
  {
    var x, y := Precedence(a).ids, Precedence(b).ids;
    forall k | 0 <= k < i
      ensures x[..i][k] == y[..i][k] <==> a.pre[..i][k] == b.pre[..i][k]
    {
      KeyOfInjective(a.pre[k], b.pre[k]);
    }
  }

  lemma IdsFollowTheStandard(a: Version, b: Version)
    requires WellFormed(a) && WellFormed(b)
    ensures Lex(KeyLess, Precedence(a).ids, Precedence(b).ids) <==> PreLower(a.pre, b.pre)
  {
    var x, y := Precedence(a).ids, Precedence(b).ids;
    LexIsFirstDifference(KeyLess, x, y);
    forall i: nat | i <= |a.pre| && i <= |b.pre|
      ensures FirstDifference(KeyLess, x, y, i)
         <==> a.pre[..i] == b.pre[..i]
              && (if i == |a.pre| || i == |b.pre| then i == |a.pre| < |b.pre|
                  else a.pre[i] != b.pre[i] && IdLower(a.pre[i], b.pre[i]))
    {
      KeysOfPrefix(a, b, i);
      if i < |a.pre| && i < |b.pre| {
        KeyOfInjective(a.pre[i], b.pre[i]);
        KeyLessIsIdLower(a.pre[i], b.pre[i]);
      }
    }
  }

  /** The computed precedence is the standard's, clause by clause. */
  lemma PrecedenceFollowsTheStandard(a: Version, b: Version)
    requires WellFormed(a) && WellFormed(b)
    ensures RankLess(Precedence(a), Precedence(b)) <==> Lower(a, b)
  {
    IdsFollowTheStandard(a, b);
  }

  /** Two texts of the same precedence differ in build metadata alone. */
  lemma TiesDifferInBuildOnly(s: string, t: string, a: Version, b: Version)
    requires Writes(s, a) && Writes(t, b)
    ensures Precedence(a) == Precedence(b) <==> Base(s) == Base(t)
  {
    BaseOfWritten(s, a);
    BaseOfWritten(t, b);
    if Precedence(a) == Precedence(b) {
      assert |a.pre| == |Precedence(a).ids| == |b.pre|;
      KeysOfPrefix(a, b, |a.pre|);
      assert a.pre[..|a.pre|] == a.pre && b.pre[..|b.pre|] == b.pre;
    } else if Base(s) == Base(t) {
      assert Writes(Print(a), a) && Writes(Print(b), b);
      ParseOfWritten(Print(a), a);
      ParseOfWritten(Print(b), b);
    }
  }

  // ---------------------------------------------------------------------------------------------
  // Ranges
  // ---------------------------------------------------------------------------------------------

  datatype Op = AtLeast | AtMost | Above | Below | Exactly

  datatype Comparator = Comparator(op: Op, bound: Version)

  function OpText(op: Op): string {
    match op
    case AtLeast => ">="
    case AtMost => "<="
    case Above => ">"
    case Below => "<"
    case Exactly => "="
  }

  /** The operators are tried in this order, so that ">=" is not read as ">". */
  function OpOf(p: string): (op: Option<Op>)
    ensures op.Some? ==> OpText(op.value) <= p
  {
    if ">=" <= p then Some(AtLeast)
    else if "<=" <= p then Some(AtMost)
    else if ">" <= p then Some(Above)
    else if "<" <= p then Some(Below)
    else if "=" <= p then Some(Exactly)
    else None
  }

  function ParseComparator(part: string): Option<Comparator> {
    var p := Strip(part);
    var op := OpOf(p);
    if op.None? then None
    else
      var bound := ParseVersion(Strip(p[|OpText(op.value)|..]));
      if bound.None? then None else Some(Comparator(op.value, bound.value))
  }

  lemma OpsAre()
    ensures OpText(AtLeast) == ">=" && OpText(AtMost) == "<="
    ensures OpText(Above) == ">" && OpText(Below) == "<" && OpText(Exactly) == "="
  {
  }

  /** A part that does not start with an operator is no comparator. */
  lemma NoOperator(part: string)
    requires Strip(part) == "" || Strip(part)[0] !in {'<', '>', '='}
    ensures ParseComparator(part) == None
  {
    hide Strip, ParseVersion;
    NoOp(Strip(part));
  }

  lemma NoOp(p: string)
    requires p == "" || p[0] !in {'<', '>', '='}
    ensures OpOf(p) == None
  {
  }

  /** After its operator a comparator is its version, or nothing. */
  lemma ComparatorIsItsVersion(part: string, op: Op, rest: string)
    requires Strip(part) == OpText(op) + rest && (rest == "" || rest[0] != '=')
    ensures ParseComparator(part) == match ParseVersion(Strip(rest))
                                     case None => None
                                     case Some(bound) => Some(Comparator(op, bound))
  {
    var p := Strip(part);
    assert p[|OpText(op)|..] == rest;
    assert ">=" <= p <==> |p| >= 2 && p[0] == '>' && p[1] == '=';
    assert "<=" <= p <==> |p| >= 2 && p[0] == '<' && p[1] == '=';
    assert OpOf(p) == Some(op);
    hide Strip, ParseVersion;
  }

  /** All comparators of the parts, or `None` when one of them does not parse. */
  function ParseAll(parts: seq<string>): (cs: Option<seq<Comparator>>)
    ensures cs.Some? ==> |cs.value| == |parts|
  {
    if parts == [] then Some([])
    else
      var before := ParseAll(parts[..|parts| - 1]);
      var last := ParseComparator(parts[|parts| - 1]);
      if before.None? || last.None? then None else Some(before.value + [last.value])
  }

  function ParseRange(rng: string): Option<seq<Comparator>> {
    ParseAll(Split(rng, ','))
  }

  predicate Satisfies(v: Version, c: Comparator) {
    var pv, pb := Precedence(v), Precedence(c.bound);
    match c.op
    case AtLeast => !RankLess(pv, pb)
    case AtMost => !RankLess(pb, pv)
    case Above => RankLess(pb, pv)
    case Below => RankLess(pv, pb)
    case Exactly => pv == pb
  }

  predicate SameRelease(a: Version, b: Version) {
    a.major == b.major && a.minor == b.minor && a.patch == b.patch
  }

  /** A pre-release needs a comparator that names a pre-release of the same release. */
  predicate PreReleaseNamed(v: Version, cs: seq<Comparator>) {
    v.pre == [] || exists i :: 0 <= i < |cs| && cs[i].bound.pre != [] && SameRelease(cs[i].bound, v)
  }

  predicate Accepts(v: Version, cs: seq<Comparator>) {
    PreReleaseNamed(v, cs) && forall i :: 0 <= i < |cs| ==> Satisfies(v, cs[i])
  }

  lemma AcceptsMeans(v: Version, cs: seq<Comparator>)
    ensures Accepts(v, cs)
       <==> && (v.pre == [] || exists i :: 0 <= i < |cs| && cs[i].bound.pre != []
                                           && cs[i].bound.(pre := []) == v.(pre := []))
            && forall i :: 0 <= i < |cs| ==> Satisfies(v, cs[i])
  {
    hide Satisfies;
    forall i | 0 <= i < |cs|
      ensures SameRelease(cs[i].bound, v) <==> cs[i].bound.(pre := []) == v.(pre := [])
    {
    }
  }

  /** `None` where the guard would raise. */
  method InRange(version: string, rng: string) returns (accepted: Option<bool>)
    ensures accepted == var v, cs := ParseVersion(version), ParseRange(rng);
                        if v.None? || cs.None? then None else Some(Accepts(v.value, cs.value))
    ensures accepted.Some? ==>
              var v, cs := ParseVersion(version).value, ParseRange(rng).value;
              (accepted.value
               <==> && (v.pre == [] || exists i :: 0 <= i < |cs| && cs[i].bound.pre != []
                                                   && cs[i].bound.(pre := []) == v.(pre := []))
                    && forall i :: 0 <= i < |cs| ==> Satisfies(v, cs[i]))
  {
    hide ParseVersion, ParseComparator, Split, Accepts;
    var v := ParseVersion(version);
    if v.None? {
      return None;
    }
    var parts := Split(rng, ',');
    var comparators := [];
    var i := 0;
    while i < |parts|
      invariant 0 <= i <= |parts| && ParseAll(parts[..i]) == Some(comparators)
    {
      var c := ParseComparator(parts[i]);
      assert parts[..i + 1][..i] == parts[..i];
      if c.None? {
        UnparsedStays(parts, i + 1);
        return None;
      }
      comparators := comparators + [c.value];
      i := i + 1;
    }
    assert parts[..i] == parts;
    AcceptsMeans(v.value, comparators);
    accepted := Some(Accepts(v.value, comparators));
  }

  lemma {:induction false} UnparsedStays(parts: seq<string>, i: nat)
    requires i <= |parts| && ParseAll(parts[..i]).None?
    ensures ParseAll(parts).None?
    decreases |parts|
  {
    if i == |parts| {
      assert parts[..i] == parts;
    } else {
      assert parts[..|parts| - 1][..i] == parts[..i];
      UnparsedStays(parts[..|parts| - 1], i);
    }
  }

  // ---------------------------------------------------------------------------------------------
  // What a written range means
  // ---------------------------------------------------------------------------------------------

  /** `part` is the comparator, with blanks wherever they are allowed. */
  ghost predicate WritesComparator(part: string, c: Comparator) {
    exists before: string, middle: string, text: string, after: string ::
      IsComparatorText(part, c, before, middle, text, after)
  }

  ghost predicate IsComparatorText(part: string, c: Comparator,
                                   before: string, middle: string, text: string, after: string) {
    && Blank(before) && Blank(middle) && Blank(after)
    && Writes(text, c.bound) && text != "" && !IsSpace(text[|text| - 1])
    && part == before + (OpText(c.op) + middle + text) + after
  }

  lemma WrittenStartsWithDigit(text: string, v: Version)
    requires Writes(text, v)
    ensures text != "" && IsDigit(text[0])
  {
    assert Join(Core(v), '.')[0] == Decimal(v.major)[0];
    assert Print(v)[0] == Decimal(v.major)[0];
    assert Print(v) <= text;
  }

  lemma OpOfWritten(op: Op, rest: string)
    requires rest != "" && (IsSpace(rest[0]) || IsDigit(rest[0]))
    ensures OpOf(OpText(op) + rest) == Some(op)
  {
    var p := OpText(op) + rest;
    assert |p| >= 2;
    assert ">=" <= p <==> p[0] == '>' && p[1] == '=';
    assert "<=" <= p <==> p[0] == '<' && p[1] == '=';
  }

  lemma ComparatorText(part: string, c: Comparator, before: string, middle: string, text: string, after: string)
    requires IsComparatorText(part, c, before, middle, text, after) && IsDigit(text[0])
    ensures Strip(part) == OpText(c.op) + (middle + text) && OpOf(OpText(c.op) + (middle + text)) == Some(c.op)
    ensures Strip(middle + text) == text
  {
    hide Writes, Strip, OpOf;
    var rest := middle + text;
    var core := OpText(c.op) + middle + text;
    assert core == OpText(c.op) + rest;
    assert core[|core| - 1] == text[|text| - 1];
    StripOfPadded(before, core, after);
    OpOfWritten(c.op, rest);
    StripOfPadded(middle, text, "");
    assert middle + text + "" == rest;
  }

  lemma ComparatorOfWritten(part: string, c: Comparator)
    requires WritesComparator(part, c)
    ensures ParseComparator(part) == Some(c)
  {
    hide Writes, ParseVersion, Strip, OpOf, OpText, Blank;
    var before, middle, text, after :| IsComparatorText(part, c, before, middle, text, after);
    WrittenStartsWithDigit(text, c.bound);
    ParseOfWritten(text, c.bound);
    ComparatorText(part, c, before, middle, text, after);
    var p := OpText(c.op) + (middle + text);
    assert p[|OpText(c.op)|..] == middle + text;
  }

  lemma {:induction false} AllOfWritten(parts: seq<string>, cs: seq<Comparator>)
    requires |parts| == |cs| && forall i :: 0 <= i < |cs| ==> WritesComparator(parts[i], cs[i])
    ensures ParseAll(parts) == Some(cs)
  {
    hide WritesComparator, ParseComparator;
    if parts != [] {
      var last := |parts| - 1;
      AllOfWritten(parts[..last], cs[..last]);
      assert cs == cs[..last] + [cs[last]];
      ComparatorOfWritten(parts[last], cs[last]);
    }
  }

  /** A comparator in the terms of the standard. */
  ghost predicate Meets(v: Version, c: Comparator) {
    match c.op
    case AtLeast => !Lower(v, c.bound)
    case AtMost => !Lower(c.bound, v)
    case Above => Lower(c.bound, v)
    case Below => Lower(v, c.bound)
    case Exactly => !Lower(v, c.bound) && !Lower(c.bound, v)
  }

  lemma SatisfiesIsMeets(v: Version, c: Comparator)
    requires WellFormed(v) && WellFormed(c.bound)
    ensures Satisfies(v, c) <==> Meets(v, c)
  {
    RanksAreOrdered();
    PrecedenceFollowsTheStandard(v, c.bound);
    PrecedenceFollowsTheStandard(c.bound, v);
    hide RankLess, Precedence, Lower, WellFormed;
  }

  /**
   A written version is in a written range exactly when it meets every comparator in the order of the
   standard and, being a pre-release, is of a release that a comparator names a pre-release of.
   */
  lemma RangeMeaning(version: string, v: Version, parts: seq<string>, cs: seq<Comparator>)
    requires Writes(version, v) && cs != [] && |parts| == |cs|
    requires forall i :: 0 <= i < |cs| ==> ',' !in parts[i] && WritesComparator(parts[i], cs[i])
    ensures ParseVersion(version) == Some(v) && ParseRange(Join(parts, ',')) == Some(cs)
    ensures Accepts(v, cs)
       <==> && (v.pre == [] || exists i :: 0 <= i < |cs| && cs[i].bound.pre != []
                                           && cs[i].bound.(pre := []) == v.(pre := []))
            && forall i :: 0 <= i < |cs| ==> Meets(v, cs[i])
  {
    AcceptsMeans(v, cs);
    hide Writes, WritesComparator, Satisfies, Meets, Split, Join, ParseAll, ParseVersion, PreReleaseNamed;
    ParseOfWritten(version, v);
    SplitOfJoin(parts, ',');
    AllOfWritten(parts, cs);
    forall i | 0 <= i < |cs|
      ensures Satisfies(v, cs[i]) <==> Meets(v, cs[i])
    {
      assert WritesComparator(parts[i], cs[i]);
      WrittenIsWellFormed(version, v, parts[i], cs[i]);
      SatisfiesIsMeets(v, cs[i]);
    }
  }

  lemma WrittenIsWellFormed(version: string, v: Version, part: string, c: Comparator)
    requires Writes(version, v) && WritesComparator(part, c)
    ensures WellFormed(v) && WellFormed(c.bound)
  {
  }

  /** Between two accepted versions a version is accepted exactly when it is a release or a named pre-release. */
  lemma RangesAreConvex(low: Version, v: Version, high: Version, cs: seq<Comparator>)
    requires Accepts(low, cs) && Accepts(high, cs)
    requires !RankLess(Precedence(v), Precedence(low)) && !RankLess(Precedence(high), Precedence(v))
    ensures Accepts(v, cs)
       <==> v.pre == [] || exists i :: 0 <= i < |cs| && cs[i].bound.pre != []
                                       && cs[i].bound.(pre := []) == v.(pre := [])
  {
    AcceptsMeans(v, cs);
    RanksAreOrdered();
    hide RankLess, Precedence;
    forall i | 0 <= i < |cs|
      ensures Satisfies(v, cs[i])
    {
      assert Satisfies(low, cs[i]) && Satisfies(high, cs[i]);
    }
  }
}
