/**
 The metrics registry and its text rendering, with a reader of the rendered text that gives the registry
 back: nothing is lost.

 Values are `real`.  How a value that is not a small integer is printed is a parameter `fmt`, and reading
 such a text is a parameter `unfmt`.  Maps are walked in the order of their keys.
 */
module MetricsExport {
  import opened Options
  import opened Order
  import opened Text

  datatype Kind = Counter | Gauge

  /** What an entry holds. */
  datatype Entry = Entry(name: string, help: string, kind: Kind, values: map<string, real>)

  type Registry = map<string, Entry>

  // ---------------------------------------------------------------------------------------------
  // Keys in order
  // ---------------------------------------------------------------------------------------------

  predicate IsLeast(key: string, keys: set<string>) {
    key in keys && forall k :: k in keys && k != key ==> Lex(CharLess, key, k)
  }

  lemma {:induction false} LeastExists(keys: set<string>)
    requires keys != {}
    ensures exists key :: IsLeast(key, keys)
  {
    var k :| k in keys;
    if keys == {k} {
      assert IsLeast(k, keys);
    } else {
      LeastExists(keys - {k});
      var least :| IsLeast(least, keys - {k});
      LexConnected(CharLess, k, least);
      if Lex(CharLess, k, least) {
        forall j | j in keys && j != k
          ensures Lex(CharLess, k, j)
        {
          if j != least {
            LexTransitive(CharLess, k, least, j);
          }
        }
        assert IsLeast(k, keys);
      } else {
        assert IsLeast(least, keys);
      }
    }
  }

  lemma LeastIsUnique(a: string, b: string, keys: set<string>)
    requires IsLeast(a, keys) && IsLeast(b, keys)
    ensures a == b
  {
    if a != b {
      LexTransitive(CharLess, a, b, a);
      LexIrreflexive(CharLess, a);
    }
  }

  /** The keys from the least to the greatest. */
  ghost function InOrder(keys: set<string>): (ks: seq<string>)
    ensures forall k :: k in ks <==> k in keys
    decreases |keys|
  {
    if keys == {} then []
    else
      LeastExists(keys);
      var k :| IsLeast(k, keys);
      [k] + InOrder(keys - {k})
  }

  lemma InOrderPicks(keys: set<string>, k: string)
    requires IsLeast(k, keys)
    ensures InOrder(keys) == [k] + InOrder(keys - {k})
  {
    var first := InOrder(keys)[0];
    assert IsLeast(first, keys);
    LeastIsUnique(first, k, keys);
  }

  // ---------------------------------------------------------------------------------------------
  // Rendering
  // ---------------------------------------------------------------------------------------------

  predicate IsPlain(v: real) {
    v.Floor as real == v && -1000000000000000.0 < v < 1000000000000000.0
  }

  function ValueText(v: real, fmt: real -> string): string {
    if IsPlain(v) then DecimalInt(v.Floor) else fmt(v)
  }

  function HelpLine(name: string, help: string): string {
    "# HELP " + name + " " + help
  }

  function KindText(kind: Kind): string {
    match kind
    case Counter => "counter"
    case Gauge => "gauge"
  }

  function TypeLine(name: string, kind: Kind): string {
    "# TYPE " + name + " " + KindText(kind)
  }

  /** A name with its labels. */
  function Series(name: string, labels: string): string {
    name + if labels == "" then "" else "{" + labels + "}"
  }

  function ValueLine(name: string, labels: string, value: string): string {
    Series(name, labels) + " " + value
  }

  ghost function ValueLines(e: Entry, keys: seq<string>, fmt: real -> string): seq<string>
    requires forall k :: k in keys ==> k in e.values
  {
    if keys == [] then []
    else [ValueLine(e.name, keys[0], ValueText(e.values[keys[0]], fmt))] + ValueLines(e, keys[1..], fmt)
  }

  ghost function EntryLines(e: Entry, fmt: real -> string): seq<string> {
    [HelpLine(e.name, e.help), TypeLine(e.name, e.kind)] + ValueLines(e, InOrder(e.values.Keys), fmt)
  }

  ghost function RegistryLines(reg: Registry, keys: seq<string>, fmt: real -> string): seq<string>
    requires forall k :: k in keys ==> k in reg
  {
    if keys == [] then [] else EntryLines(reg[keys[0]], fmt) + RegistryLines(reg, keys[1..], fmt)
  }

  /** Every line with its line feed. */
  ghost function Unlines(lines: seq<string>): string {
    if lines == [] then "" else lines[0] + "\n" + Unlines(lines[1..])
  }

  ghost function Render(reg: Registry, fmt: real -> string): string {
    Unlines(RegistryLines(reg, InOrder(reg.Keys), fmt))
  }

  lemma {:induction false} UnlinesAppends(a: seq<string>, b: seq<string>)
    ensures Unlines(a + b) == Unlines(a) + Unlines(b)
  {
    if a == [] {
      assert a + b == b;
    } else {
      UnlinesAppends(a[1..], b);
      assert (a + b)[1..] == a[1..] + b;
    }
  }

  lemma UnlinesOne(line: string)
    ensures Unlines([line]) == line + "\n"
  {
    assert Unlines([line][1..]) == "";
  }

  // ---------------------------------------------------------------------------------------------
  // Reading
  // ---------------------------------------------------------------------------------------------

  function ReadValue(text: string, unfmt: string -> real): real {
    if IsDecimalInt(text) then IntValue(text) as real else unfmt(text)
  }

  /** The last space of the line, or its length. */
  function LastSpace(line: string): (i: nat)
    ensures i <= |line| && (i < |line| ==> line[i] == ' ' && ' ' !in line[i + 1..])
  {
    if line == "" then 0
    else
      var i := LastSpace(line[1..]);
      if i < |line| - 1 then
        assert line[i + 2..] == line[1..][i + 1..];
        i + 1
      else if line[0] == ' ' && ' ' !in line[1..] then 0
      else |line|
  }

  lemma LastSpaceAt(line: string, i: nat)
    requires i < |line| && line[i] == ' ' && ' ' !in line[i + 1..]
    ensures LastSpace(line) == i
  {
    if i > 0 {
      assert line[1..][i..] == line[i + 1..];
      LastSpaceAt(line[1..], i - 1);
    } else if |line| > 1 {
      assert ' ' !in line[1..];
    }
  }

  function ReadHelp(reg: Registry, rest: string): Registry {
    var i := Find(rest, ' ');
    if i == |rest| then reg else reg[rest[..i] := Entry(rest[..i], rest[i + 1..], Gauge, map[])]
  }

  /** A kind that the reader does not know makes it forget the metric. */
  function ReadType(reg: Registry, rest: string): Registry {
    var i := Find(rest, ' ');
    if i == |rest| || rest[..i] !in reg then reg
    else if rest[i + 1..] == "counter" then reg[rest[..i] := reg[rest[..i]].(kind := Counter)]
    else if rest[i + 1..] == "gauge" then reg[rest[..i] := reg[rest[..i]].(kind := Gauge)]
    else reg - {rest[..i]}
  }

  /** What stands between the name and the value: nothing, or labels in braces. */
  function LabelsIn(braced: string): string {
    if |braced| < 2 then "" else braced[1..|braced| - 1]
  }

  function Sample(reg: Registry, head: string, value: real): Registry {
    var i := Find(head, '{');
    var name := head[..i];
    if name !in reg then reg
    else reg[name := reg[name].(values := reg[name].values[LabelsIn(head[i..]) := value])]
  }

  function ReadSample(reg: Registry, line: string, unfmt: string -> real): Registry {
    var i := LastSpace(line);
    if i == |line| then reg else Sample(reg, line[..i], ReadValue(line[i + 1..], unfmt))
  }

  /** Takes in one line; a line that fits no form leaves the registry as it is. */
  function ReadLine(reg: Registry, line: string, unfmt: string -> real): Registry {
    if "# HELP " <= line then ReadHelp(reg, line[7..])
    else if "# TYPE " <= line then ReadType(reg, line[7..])
    else ReadSample(reg, line, unfmt)
  }

  function ReadLines(reg: Registry, lines: seq<string>, unfmt: string -> real): Registry
    decreases |lines|
  {
    if lines == [] then reg else ReadLines(ReadLine(reg, lines[0], unfmt), lines[1..], unfmt)
  }

  function Read(text: string, unfmt: string -> real): Registry {
    ReadLines(map[], Split(text, '\n'), unfmt)
  }

  lemma {:induction false} ReadLinesAppends(reg: Registry, a: seq<string>, b: seq<string>, unfmt: string -> real)
    ensures ReadLines(reg, a + b, unfmt) == ReadLines(ReadLines(reg, a, unfmt), b, unfmt)
    decreases |a|
  {
    hide ReadLine;
    if a == [] {
      assert a + b == b;
    } else {
      ReadLinesAppends(ReadLine(reg, a[0], unfmt), a[1..], b, unfmt);
      assert (a + b)[1..] == a[1..] + b && (a + b)[0] == a[0];
    }
  }

  // ---------------------------------------------------------------------------------------------
  // Reading what was rendered
  // ---------------------------------------------------------------------------------------------

  predicate PlainName(name: string) {
    name != "" && ' ' !in name && '{' !in name && '\n' !in name && name[0] != '#'
  }

  /** A value whose printed text can be read again; every small integer is one. */
  predicate ReadsBack(v: real, fmt: real -> string, unfmt: string -> real) {
    IsPlain(v) || (' ' !in fmt(v) && '\n' !in fmt(v) && ReadValue(fmt(v), unfmt) == v)
  }

  ghost predicate ReadableEntry(e: Entry, fmt: real -> string, unfmt: string -> real) {
    && PlainName(e.name) && '\n' !in e.help
    && forall labels :: labels in e.values ==> '\n' !in labels && ReadsBack(e.values[labels], fmt, unfmt)
  }

  ghost predicate Readable(reg: Registry, fmt: real -> string, unfmt: string -> real) {
    forall name :: name in reg ==> reg[name].name == name && ReadableEntry(reg[name], fmt, unfmt)
  }

  /** Every integer below 10^15 in magnitude can be read again, however other values are printed. */
  lemma IntegersReadBack(n: int, fmt: real -> string, unfmt: string -> real)
    requires -1000000000000000 < n < 1000000000000000
    ensures ReadsBack(n as real, fmt, unfmt)
  {
  }

  /** So can any other value whose text is one word that reads as it. */
  lemma OthersReadBackIff(v: real, fmt: real -> string, unfmt: string -> real)
    requires v.Floor as real != v || v <= -1000000000000000.0 || v >= 1000000000000000.0
    ensures ReadsBack(v, fmt, unfmt) <==> ' ' !in fmt(v) && '\n' !in fmt(v) && ReadValue(fmt(v), unfmt) == v
  {
  }

  lemma DigitsArePlain(s: string)
    requires AllDigits(s)
    ensures ' ' !in s && '\n' !in s
  {
  }

  lemma ValueTextReads(v: real, fmt: real -> string, unfmt: string -> real)
    requires ReadsBack(v, fmt, unfmt)
    ensures var t := ValueText(v, fmt); ' ' !in t && '\n' !in t && ReadValue(t, unfmt) == v
  {
    if IsPlain(v) {
      IntValueOfDecimalInt(v.Floor);
      DigitsArePlain(Decimal(if v.Floor < 0 then -v.Floor else v.Floor));
    }
  }

  lemma FirstSpace(name: string, text: string)
    requires ' ' !in name
    ensures var rest := name + " " + text;
            Find(rest, ' ') == |name| && rest[..|name|] == name && rest[|name| + 1..] == text
  {
    var rest := name + " " + text;
    assert rest[..|name|] == name;
    FindAt(rest, ' ', |name|);
  }

  /** Integers below 10^15 in magnitude are printed in digits, everything else by `fmt`. */
  lemma ValueTextMeans(v: real, fmt: real -> string)
    ensures v.Floor as real == v && -1000000000000000 < v.Floor < 1000000000000000 ==>
              ValueText(v, fmt) == if v.Floor < 0 then "-" + Decimal(-v.Floor) else Decimal(v.Floor)
    ensures v.Floor as real != v || v <= -1000000000000000.0 || v >= 1000000000000000.0 ==> ValueText(v, fmt) == fmt(v)
  {
  }

  /** The printed lines of a metric, word for word. */
  lemma LinesMean(e: Entry, fmt: real -> string)
    ensures var lines, keys := EntryLines(e, fmt), InOrder(e.values.Keys);
            && |lines| == 2 + |keys|
            && lines[0] == "# HELP " + e.name + " " + e.help
            && lines[1] == "# TYPE " + e.name + (match e.kind case Counter => " counter" case Gauge => " gauge")
            && forall i :: 0 <= i < |keys| ==>
                 lines[2 + i] == e.name + (if keys[i] == "" then "" else "{" + keys[i] + "}")
                                 + " " + ValueText(e.values[keys[i]], fmt)
  {
    hide ValueText;
    LinesAt(e, InOrder(e.values.Keys), fmt);
    var kind := KindText(e.kind);
    assert e.name + " " + kind == e.name + (" " + kind);
    assert " " + kind == (match e.kind case Counter => " counter" case Gauge => " gauge");
    assert TypeLine(e.name, e.kind) == "# TYPE " + e.name + (" " + kind);
  }

  lemma {:induction false} LinesAt(e: Entry, keys: seq<string>, fmt: real -> string)
    requires forall k :: k in keys ==> k in e.values
    ensures var lines := ValueLines(e, keys, fmt);
            && |lines| == |keys|
            && forall i :: 0 <= i < |keys| ==>
                 lines[i] == e.name + (if keys[i] == "" then "" else "{" + keys[i] + "}")
                             + " " + ValueText(e.values[keys[i]], fmt)
  {
    hide ValueText;
    if keys != [] {
      LinesAt(e, keys[1..], fmt);
      assert ValueLines(e, keys, fmt)[1..] == ValueLines(e, keys[1..], fmt);
    }
  }

  lemma ReadHelpLine(reg: Registry, name: string, help: string, unfmt: string -> real)
    requires PlainName(name)
    ensures ReadLine(reg, HelpLine(name, help), unfmt) == reg[name := Entry(name, help, Gauge, map[])]
  {
    hide Find;
    var rest := name + " " + help;
    assert HelpLine(name, help) == "# HELP " + rest;
    assert HelpLine(name, help)[7..] == rest;
    FirstSpace(name, help);
  }

  lemma ReadTypeLine(reg: Registry, name: string, kind: Kind, unfmt: string -> real)
    requires PlainName(name) && name in reg
    ensures ReadLine(reg, TypeLine(name, kind), unfmt) == reg[name := reg[name].(kind := kind)]
  {
    hide Find;
    var rest := name + " " + KindText(kind);
    var line := TypeLine(name, kind);
    assert line == "# TYPE " + rest;
    assert line[7..] == rest && line[2] == 'T';
    assert ReadLine(reg, line, unfmt) == ReadType(reg, rest);
    FirstSpace(name, KindText(kind));
  }

  lemma SampleOf(reg: Registry, name: string, labels: string, value: real)
    requires PlainName(name) && name in reg
    ensures Sample(reg, Series(name, labels), value)
         == reg[name := reg[name].(values := reg[name].values[labels := value])]
  {
    var head := Series(name, labels);
    assert head[..|name|] == name;
    FindAt(head, '{', |name|);
    assert head[|name|..] == if labels == "" then "" else "{" + labels + "}";
  }

  lemma ReadValueLine(reg: Registry, name: string, labels: string, value: string, unfmt: string -> real)
    requires PlainName(name) && name in reg && ' ' !in value
    ensures ReadLine(reg, ValueLine(name, labels, value), unfmt)
         == reg[name := reg[name].(values := reg[name].values[labels := ReadValue(value, unfmt)])]
  {
    var head := Series(name, labels);
    var line := ValueLine(name, labels, value);
    assert line[0] == head[0] == name[0] != '#';
    hide Series, LastSpace, Sample, ReadValue;
    assert line == head + " " + value;
    assert line[|head| + 1..] == value;
    LastSpaceAt(line, |head|);
    assert line[..|head|] == head;
    SampleOf(reg, name, labels, ReadValue(value, unfmt));
  }

  /** The part of a map over some keys. */
  ghost function Only<V>(m: map<string, V>, keys: set<string>): map<string, V> {
    map k | k in m && k in keys :: m[k]
  }

  ghost function Members(keys: seq<string>): set<string> {
    set k | k in keys
  }

  lemma OnlyGrows<V>(m: map<string, V>, done: set<string>, keys: seq<string>)
    requires keys != [] && keys[0] in m
    ensures Only(m, done)[keys[0] := m[keys[0]]] == Only(m, done + {keys[0]})
    ensures done + {keys[0]} + Members(keys[1..]) == done + Members(keys)
  {
    assert keys == [keys[0]] + keys[1..];
  }

  lemma {:induction false} ReadValueLines(base: Registry, e: Entry, done: set<string>, keys: seq<string>,
                                          fmt: real -> string, unfmt: string -> real)
    requires ReadableEntry(e, fmt, unfmt) && forall k :: k in keys ==> k in e.values
    ensures ReadLines(base[e.name := e.(values := Only(e.values, done))], ValueLines(e, keys, fmt), unfmt)
         == base[e.name := e.(values := Only(e.values, done + Members(keys)))]
    decreases |keys|
  {
    hide ReadLine, ValueLine, ValueText, ReadValue, ReadsBack, PlainName;
    if keys == [] {
      assert done + Members(keys) == done;
    } else {
      var k := keys[0];
      var text := ValueText(e.values[k], fmt);
      ValueTextReads(e.values[k], fmt, unfmt);
      var reg := base[e.name := e.(values := Only(e.values, done))];
      ReadValueLine(reg, e.name, k, text, unfmt);
      OnlyGrows(e.values, done, keys);
      var lines := ValueLines(e, keys, fmt);
      assert lines[0] == ValueLine(e.name, k, text) && lines[1..] == ValueLines(e, keys[1..], fmt);
      assert ReadLine(reg, lines[0], unfmt) == base[e.name := e.(values := Only(e.values, done + {k}))];
      ReadValueLines(base, e, done + {k}, keys[1..], fmt, unfmt);
    }
  }

  lemma ReadEntryLines(reg: Registry, e: Entry, fmt: real -> string, unfmt: string -> real)
    requires ReadableEntry(e, fmt, unfmt)
    ensures ReadLines(reg, EntryLines(e, fmt), unfmt) == reg[e.name := e]
  {
    hide ReadLine, ValueLines, ReadsBack, PlainName, HelpLine, TypeLine;
    var keys := InOrder(e.values.Keys);
    var help, kind, values := HelpLine(e.name, e.help), TypeLine(e.name, e.kind), ValueLines(e, keys, fmt);
    var lines := EntryLines(e, fmt);
    assert lines[0] == help && lines[1..][0] == kind && lines[1..][1..] == values;
    var first := reg[e.name := Entry(e.name, e.help, Gauge, map[])];
    var bare := reg[e.name := e.(values := map[])];
    ReadHelpLine(reg, e.name, e.help, unfmt);
    ReadTypeLine(first, e.name, e.kind, unfmt);
    assert ReadLine(ReadLine(reg, help, unfmt), kind, unfmt) == bare;
    assert Only(e.values, {}) == map[];
    ReadValueLines(reg, e, {}, keys, fmt, unfmt);
    assert Only(e.values, {} + Members(keys)) == e.values;
  }

  lemma {:induction false} ReadRegistryLines(reg: Registry, done: set<string>, keys: seq<string>,
                                             fmt: real -> string, unfmt: string -> real)
    requires Readable(reg, fmt, unfmt) && forall k :: k in keys ==> k in reg
    ensures ReadLines(Only(reg, done), RegistryLines(reg, keys, fmt), unfmt) == Only(reg, done + Members(keys))
    decreases |keys|
  {
    hide ReadableEntry, EntryLines, ReadLines;
    if keys == [] {
      assert done + Members(keys) == done;
      NothingToRead(Only(reg, done), unfmt);
    } else {
      var k := keys[0];
      ReadLinesAppends(Only(reg, done), EntryLines(reg[k], fmt), RegistryLines(reg, keys[1..], fmt), unfmt);
      ReadEntryLines(Only(reg, done), reg[k], fmt, unfmt);
      OnlyGrows(reg, done, keys);
      ReadRegistryLines(reg, done + {k}, keys[1..], fmt, unfmt);
    }
  }

  lemma NothingToRead(reg: Registry, unfmt: string -> real)
    ensures ReadLines(reg, [], unfmt) == reg
    ensures ReadLines(reg, [""], unfmt) == reg
  {
    assert [""][1..] == [];
  }

  // ---------------------------------------------------------------------------------------------
  // No line holds a line feed
  // ---------------------------------------------------------------------------------------------

  ghost predicate OneLineEach(lines: seq<string>) {
    forall i :: 0 <= i < |lines| ==> '\n' !in lines[i]
  }

  lemma {:induction false} ValueLinesFit(e: Entry, keys: seq<string>, fmt: real -> string, unfmt: string -> real)
    requires ReadableEntry(e, fmt, unfmt) && forall k :: k in keys ==> k in e.values
    ensures OneLineEach(ValueLines(e, keys, fmt))
  {
    hide ReadsBack, ValueText, ReadValue;
    if keys != [] {
      ValueTextReads(e.values[keys[0]], fmt, unfmt);
      assert '\n' !in ValueLine(e.name, keys[0], ValueText(e.values[keys[0]], fmt));
      ValueLinesFit(e, keys[1..], fmt, unfmt);
    }
  }

  lemma EntryLinesFit(e: Entry, fmt: real -> string, unfmt: string -> real)
    requires ReadableEntry(e, fmt, unfmt)
    ensures OneLineEach(EntryLines(e, fmt))
  {
    hide ReadsBack, ValueLines;
    ValueLinesFit(e, InOrder(e.values.Keys), fmt, unfmt);
    assert '\n' !in HelpLine(e.name, e.help);
    assert '\n' !in TypeLine(e.name, e.kind);
  }

  lemma {:induction false} RegistryLinesFit(reg: Registry, keys: seq<string>,
                                            fmt: real -> string, unfmt: string -> real)
    requires Readable(reg, fmt, unfmt) && forall k :: k in keys ==> k in reg
    ensures OneLineEach(RegistryLines(reg, keys, fmt))
    decreases |keys|
  {
    hide ReadableEntry, EntryLines;
    if keys != [] {
      EntryLinesFit(reg[keys[0]], fmt, unfmt);
      RegistryLinesFit(reg, keys[1..], fmt, unfmt);
    }
  }

  lemma {:induction false} UnlinesIsJoin(lines: seq<string>)
    ensures Unlines(lines) == Join(lines + [""], '\n')
  {
    if lines != [] {
      UnlinesIsJoin(lines[1..]);
      assert (lines + [""])[1..] == lines[1..] + [""];
    }
  }

  /** The reader gives back what was rendered. */
  lemma ReadOfRender(reg: Registry, fmt: real -> string, unfmt: string -> real)
    requires Readable(reg, fmt, unfmt)
    ensures Read(Render(reg, fmt), unfmt) == reg
  {
    hide Readable, RegistryLines, ReadLines, Only, Unlines, Split, Join;
    var keys := InOrder(reg.Keys);
    var lines := RegistryLines(reg, keys, fmt);
    RegistryLinesFit(reg, keys, fmt, unfmt);
    UnlinesIsJoin(lines);
    SplitOfJoin(lines + [""], '\n');
    ReadLinesAppends(map[], lines, [""], unfmt);
    NothingToRead(ReadLines(map[], lines, unfmt), unfmt);
    OnlyAll(reg, keys);
    ReadRegistryLines(reg, {}, keys, fmt, unfmt);
  }

  lemma OnlyAll(reg: Registry, keys: seq<string>)
    requires forall k :: k in keys <==> k in reg
    ensures Only(reg, {}) == map[] && Only(reg, {} + Members(keys)) == reg
  {
  }

  /** Registries that print alike are equal. */
  lemma RenderingLosesNothing(a: Registry, b: Registry, fmt: real -> string, unfmt: string -> real)
    requires Readable(a, fmt, unfmt) && Readable(b, fmt, unfmt)
    requires Render(a, fmt) == Render(b, fmt)
    ensures a == b
  {
    ReadOfRender(a, fmt, unfmt);
    ReadOfRender(b, fmt, unfmt);
  }

  // ---------------------------------------------------------------------------------------------
  // What a line feed in a label text can hide
  // ---------------------------------------------------------------------------------------------

  lemma NextValue(e: Entry, labels: string, rest: seq<string>, fmt: real -> string)
    requires labels in e.values && forall k :: k in rest ==> k in e.values
    ensures Unlines(ValueLines(e, [labels] + rest, fmt))
         == Series(e.name, labels) + " " + ValueText(e.values[labels], fmt) + "\n" + Unlines(ValueLines(e, rest, fmt))
  {
    hide Series, ValueText;
    var keys := [labels] + rest;
    assert keys[1..] == rest && keys[0] == labels;
    var line := ValueLine(e.name, labels, ValueText(e.values[labels], fmt));
    UnlinesAppends([line], ValueLines(e, rest, fmt));
    UnlinesOne(line);
  }

  lemma NextEntry(reg: Registry, name: string, rest: seq<string>, fmt: real -> string)
    requires name in reg && forall k :: k in rest ==> k in reg
    ensures Unlines(RegistryLines(reg, [name] + rest, fmt))
         == Unlines(EntryLines(reg[name], fmt)) + Unlines(RegistryLines(reg, rest, fmt))
  {
    hide Unlines, EntryLines;
    var keys := [name] + rest;
    assert keys[1..] == rest && keys[0] == name;
    UnlinesAppends(EntryLines(reg[name], fmt), RegistryLines(reg, rest, fmt));
  }

  /** The label text that prints, before a value, like the series of `x` with its value and the series of `y`. */
  function Spliced(name: string, x: string, text: string, y: string): string {
    x + "} " + text + "\n" + name + "{" + y
  }

  lemma SplicedLine(name: string, x: string, text: string, y: string, last: string)
    requires x != "" && y != ""
    ensures Series(name, x) + " " + text + "\n" + (Series(name, y) + " " + last + "\n")
         == Series(name, Spliced(name, x, text, y)) + " " + last + "\n"
  {
    var left := name + "{" + x + "} " + text + "\n";
    var right := name + "{" + y + "} " + last + "\n";
    assert Series(name, x) + " " + text + "\n" == left;
    assert Series(name, y) + " " + last + "\n" == right;
    assert Series(name, Spliced(name, x, text, y)) + " " + last + "\n" == left + right;
  }

  lemma {:induction false} PrefixLess(x: string, more: string)
    requires more != ""
    ensures Lex(CharLess, x, x + more)
  {
    if x != "" {
      assert (x + more)[1..] == x[1..] + more;
      PrefixLess(x[1..], more);
    }
  }

  lemma SplicedIsLater(name: string, x: string, text: string, y: string)
    ensures Lex(CharLess, x, Spliced(name, x, text, y))
  {
    var more := "} " + text + "\n" + name + "{" + y;
    assert Spliced(name, x, text, y) == x + more;
    PrefixLess(x, more);
  }

  /** `x` comes right before `y`, and `both` would take their place. */
  ghost predicate InPlace(keys: set<string>, x: string, y: string, both: string) {
    && x in keys && y in keys && x != "" && Lex(CharLess, x, y)
    && forall k :: k in keys && k != x && k != y ==>
         Lex(CharLess, k, x) || (Lex(CharLess, y, k) && Lex(CharLess, both, k))
  }

  /** `f` has one value under `both` where `e` has two, and is `e` otherwise. */
  ghost predicate Splices(e: Entry, f: Entry, keys: set<string>, x: string, y: string, both: string)
    requires keys <= e.values.Keys
  {
    && f.name == e.name && x in keys && y in keys
    && both in f.values && f.values[both] == e.values[y]
    && forall k :: k in keys && k != x && k != y ==> k in f.values && f.values[k] == e.values[k]
  }

  lemma LexIsOrder()
    ensures forall a, b: string :: Lex(CharLess, a, b) ==> !Lex(CharLess, b, a)
    ensures forall a: string :: !Lex(CharLess, a, a)
    ensures forall a, b, c: string :: Lex(CharLess, a, b) && Lex(CharLess, b, c) ==> Lex(CharLess, a, c)
  {
    assert StrictTotal(CharLess);
    forall a: string
      ensures !Lex(CharLess, a, a)
    {
      LexIrreflexive(CharLess, a);
    }
    forall a: string, b: string, c: string | Lex(CharLess, a, b) && Lex(CharLess, b, c)
      ensures Lex(CharLess, a, c)
    {
      LexTransitive(CharLess, a, b, c);
    }
  }

  lemma {:induction false} SameValueLines(e: Entry, f: Entry, keys: seq<string>, fmt: real -> string)
    requires f.name == e.name
    requires forall k :: k in keys ==> k in e.values && k in f.values && e.values[k] == f.values[k]
    ensures ValueLines(e, keys, fmt) == ValueLines(f, keys, fmt)
  {
    hide ValueLine, ValueText;
    if keys != [] {
      SameValueLines(e, f, keys[1..], fmt);
    }
  }

  /** Where `x` is the least label: the two lines of `x` and `y` against the one of `both`. */
  lemma SpliceHere(e: Entry, f: Entry, keys: set<string>, x: string, y: string, fmt: real -> string)
    requires keys <= e.values.Keys && x in keys && IsLeast(x, keys)
    requires var both := Spliced(e.name, x, ValueText(e.values[x], fmt), y);
             InPlace(keys, x, y, both) && Splices(e, f, keys, x, y, both)
    ensures var both := Spliced(e.name, x, ValueText(e.values[x], fmt), y);
            var rest := InOrder(keys - {x} - {y});
            && InOrder(keys) == [x] + ([y] + rest)
            && InOrder(keys - {x, y} + {both}) == [both] + rest
            && ValueLines(e, rest, fmt) == ValueLines(f, rest, fmt)
  {
    hide Lex, ValueText, ValueLines, Spliced;
    LexIsOrder();
    SplicedIsLater(e.name, x, ValueText(e.values[x], fmt), y);
    var both := Spliced(e.name, x, ValueText(e.values[x], fmt), y);
    var later := keys - {x, y} + {both};
    assert IsLeast(y, keys - {x}) && IsLeast(both, later);
    InOrderPicks(keys, x);
    InOrderPicks(keys - {x}, y);
    InOrderPicks(later, both);
    assert later - {both} == keys - {x} - {y};
    SameValueLines(e, f, InOrder(keys - {x} - {y}), fmt);
  }

  /** Where another label is the least, it is so on both sides. */
  lemma SpliceLater(keys: set<string>, x: string, y: string, both: string, first: string)
    requires InPlace(keys, x, y, both) && Lex(CharLess, x, both) && IsLeast(first, keys) && first != x
    ensures first != y && first != both && InPlace(keys - {first}, x, y, both)
    ensures InOrder(keys) == [first] + InOrder(keys - {first})
    ensures InOrder(keys - {x, y} + {both}) == [first] + InOrder(keys - {first} - {x, y} + {both})
  {
    hide Lex;
    LexIsOrder();
    var later := keys - {x, y} + {both};
    assert IsLeast(first, later);
    InOrderPicks(keys, first);
    InOrderPicks(later, first);
    assert later - {first} == keys - {first} - {x, y} + {both};
  }

  /** The text of the values under these keys, in order. */
  ghost function ValuesText(e: Entry, keys: set<string>, fmt: real -> string): string
    requires keys <= e.values.Keys
  {
    Unlines(ValueLines(e, InOrder(keys), fmt))
  }

  lemma ValuesTextPicks(e: Entry, keys: set<string>, first: string, fmt: real -> string)
    requires keys <= e.values.Keys && first in keys && InOrder(keys) == [first] + InOrder(keys - {first})
    ensures ValuesText(e, keys, fmt)
         == Series(e.name, first) + " " + ValueText(e.values[first], fmt) + "\n" + ValuesText(e, keys - {first}, fmt)
  {
    hide InOrder, Unlines, ValueLines;
    NextValue(e, first, InOrder(keys - {first}), fmt);
  }

  lemma SplicedHere(e: Entry, f: Entry, keys: set<string>, x: string, y: string, fmt: real -> string)
    requires keys <= e.values.Keys && x in keys && IsLeast(x, keys)
    requires var both := Spliced(e.name, x, ValueText(e.values[x], fmt), y);
             InPlace(keys, x, y, both) && Splices(e, f, keys, x, y, both) && keys - {x, y} + {both} <= f.values.Keys
    ensures var both := Spliced(e.name, x, ValueText(e.values[x], fmt), y);
            ValuesText(e, keys, fmt) == ValuesText(f, keys - {x, y} + {both}, fmt)
  {
    SpliceHere(e, f, keys, x, y, fmt);
    hide Lex, ValueText, ValueLines, Unlines, Spliced, Series, InOrder, IsLeast, InPlace;
    var both := Spliced(e.name, x, ValueText(e.values[x], fmt), y);
    var rest := InOrder(keys - {x} - {y});
    NextValue(e, x, [y] + rest, fmt);
    NextValue(e, y, rest, fmt);
    NextValue(f, both, rest, fmt);
    assert y != "" by { LexNotEmpty(keys, x, y, both); }
    SplicedRest(e.name, x, ValueText(e.values[x], fmt), y, ValueText(e.values[y], fmt),
                Unlines(ValueLines(e, rest, fmt)));
  }

  lemma LexNotEmpty(keys: set<string>, x: string, y: string, both: string)
    requires InPlace(keys, x, y, both)
    ensures y != ""
  {
  }

  lemma {:induction false} SplicedValues(e: Entry, f: Entry, keys: set<string>, x: string, y: string,
                                         fmt: real -> string)
    requires keys <= e.values.Keys && x in keys
    requires var both := Spliced(e.name, x, ValueText(e.values[x], fmt), y);
             InPlace(keys, x, y, both) && Splices(e, f, keys, x, y, both) && keys - {x, y} + {both} <= f.values.Keys
    ensures var both := Spliced(e.name, x, ValueText(e.values[x], fmt), y);
            ValuesText(e, keys, fmt) == ValuesText(f, keys - {x, y} + {both}, fmt)
    decreases |keys|
  {
    hide Lex, ValueText, ValuesText, Spliced, InOrder, IsLeast, InPlace;
    var both := Spliced(e.name, x, ValueText(e.values[x], fmt), y);
    var first := LeastOf(keys);
    if first == x {
      SplicedHere(e, f, keys, x, y, fmt);
    } else {
      SplicedIsLater(e.name, x, ValueText(e.values[x], fmt), y);
      SpliceLater(keys, x, y, both, first);
      var fewer, later := keys - {first}, keys - {x, y} + {both};
      assert later - {first} == fewer - {x, y} + {both};
      assert |fewer| < |keys|;
      SplicedValues(e, f, fewer, x, y, fmt);
      ValuesTextPicks(e, keys, first, fmt);
      ValuesTextPicks(f, later, first, fmt);
    }
  }

  lemma LeastOf(keys: set<string>) returns (first: string)
    requires keys != {}
    ensures first in keys && IsLeast(first, keys)
  {
    LeastExists(keys);
    first :| IsLeast(first, keys);
  }

  lemma SplicedRest(name: string, x: string, text: string, y: string, last: string, rest: string)
    requires x != "" && y != ""
    ensures Series(name, x) + " " + text + "\n" + (Series(name, y) + " " + last + "\n" + rest)
         == Series(name, Spliced(name, x, text, y)) + " " + last + "\n" + rest
  {
    hide Spliced, Series;
    SplicedLine(name, x, text, y, last);
    var a, b := Series(name, x) + " " + text + "\n", Series(name, y) + " " + last + "\n";
    assert a + (b + rest) == (a + b) + rest;
  }

  lemma {:induction false} SameText(reg: Registry, name: string, f: Entry, keys: seq<string>, fmt: real -> string)
    requires name in reg && forall k :: k in keys ==> k in reg
    requires Unlines(EntryLines(reg[name], fmt)) == Unlines(EntryLines(f, fmt))
    ensures Unlines(RegistryLines(reg, keys, fmt)) == Unlines(RegistryLines(reg[name := f], keys, fmt))
    decreases |keys|
  {
    hide EntryLines, RegistryLines, Unlines;
    var other := reg[name := f];
    if keys == [] {
      NoLines(reg, other, fmt);
    } else {
      var k, rest := keys[0], keys[1..];
      assert keys == [k] + rest;
      SameText(reg, name, f, rest, fmt);
      NextEntry(reg, k, rest, fmt);
      NextEntry(other, k, rest, fmt);
    }
  }

  lemma NoLines(a: Registry, b: Registry, fmt: real -> string)
    ensures RegistryLines(a, [], fmt) == RegistryLines(b, [], fmt)
  {
  }

  lemma NotYetUsed(e: Entry, x: string, y: string, fmt: real -> string)
    requires x in e.values
    requires InPlace(e.values.Keys, x, y, Spliced(e.name, x, ValueText(e.values[x], fmt), y))
    ensures Spliced(e.name, x, ValueText(e.values[x], fmt), y) !in e.values
  {
    var both := Spliced(e.name, x, ValueText(e.values[x], fmt), y);
    assert |both| > |x| && |both| > |y|;
    SplicedIsLater(e.name, x, ValueText(e.values[x], fmt), y);
    hide Lex, ValueText, Spliced;
    LexIsOrder();
  }

  /**
   In any registry, any two neighbouring values of a metric print like one, under a label text with a line feed
   in it, as long as that text would stand in their place.
   */
  lemma LineFeedsLoseInformation(reg: Registry, name: string, x: string, y: string, fmt: real -> string)
    requires name in reg && x in reg[name].values && y in reg[name].values && x != "" && Lex(CharLess, x, y)
    requires forall k :: k in reg[name].values && k != x && k != y ==>
               || Lex(CharLess, k, x)
               || (Lex(CharLess, y, k)
                   && Lex(CharLess, Spliced(reg[name].name, x, ValueText(reg[name].values[x], fmt), y), k))
    ensures var e := reg[name];
            var both := Spliced(e.name, x, ValueText(e.values[x], fmt), y);
            var f := e.(values := (e.values - {x, y})[both := e.values[y]]);
            both !in e.values && Render(reg, fmt) == Render(reg[name := f], fmt)
  {
    var e := reg[name];
    var both := Spliced(e.name, x, ValueText(e.values[x], fmt), y);
    hide Lex, ValueText, ValueLines, Unlines, Spliced, RegistryLines, HelpLine, TypeLine, InOrder;
    NotYetUsed(e, x, y, fmt);
    var f := e.(values := (e.values - {x, y})[both := e.values[y]]);
    assert f.values.Keys == e.values.Keys - {x, y} + {both};
    SplicedValues(e, f, e.values.Keys, x, y, fmt);
    var head := [HelpLine(e.name, e.help), TypeLine(e.name, e.kind)];
    UnlinesAppends(head, ValueLines(e, InOrder(e.values.Keys), fmt));
    UnlinesAppends(head, ValueLines(f, InOrder(f.values.Keys), fmt));
    assert reg[name := f].Keys == reg.Keys;
    SameText(reg, name, f, InOrder(reg.Keys), fmt);
  }

  /** For one metric with two values the text always stands in their place. */
  lemma TwoValuesPrintAsOne(e: Entry, x: string, y: string, fmt: real -> string)
    requires x != "" && Lex(CharLess, x, y) && e.values.Keys == {x, y}
    ensures var f := e.(values := map[Spliced(e.name, x, ValueText(e.values[x], fmt), y) := e.values[y]]);
            f != e && Render(map[e.name := e], fmt) == Render(map[f.name := f], fmt)
  {
    var text := ValueText(e.values[x], fmt);
    var both := Spliced(e.name, x, text, y);
    var f := e.(values := map[both := e.values[y]]);
    hide Render, Lex, ValueText, Spliced;
    var reg := map[e.name := e];
    LineFeedsLoseInformation(reg, e.name, x, y, fmt);
    assert (e.values - {x, y})[both := e.values[y]] == f.values;
    assert reg[e.name := f] == map[f.name := f];
    assert both in f.values;
  }

  // ---------------------------------------------------------------------------------------------
  // The registry
  // ---------------------------------------------------------------------------------------------

  /** The value under `labels`, with none standing for zero. */
  function Current(values: map<string, real>, labels: string): real {
    if labels in values then values[labels] else 0.0
  }

  /** The registry with one value replaced; a name that is not registered stays unknown. */
  ghost function Changed(reg: Registry, name: string, labels: string, f: real -> real): Registry {
    if name !in reg then reg
    else reg[name := reg[name].(values := reg[name].values[labels := f(Current(reg[name].values, labels))])]
  }

  /** What a call of the registry changes, spelled out. */
  lemma ChangedMeans(reg: Registry, name: string, labels: string, f: real -> real)
    ensures var after := Changed(reg, name, labels, f);
            && after.Keys == reg.Keys
            && (forall n :: n in reg && n != name ==> after[n] == reg[n])
            && (name in reg ==>
                  var was := if labels in reg[name].values then reg[name].values[labels] else 0.0;
                  && after[name].name == reg[name].name && after[name].help == reg[name].help
                  && after[name].kind == reg[name].kind
                  && after[name].values == reg[name].values[labels := f(was)])
  {
  }

  class MetricEntry {
    const name: string
    const help: string
    const kind: Kind
    var values: map<string, real>

    ghost function State(): Entry
      reads this
    {
      Entry(name, help, kind, values)
    }

    constructor (name: string, help: string, kind: Kind)
      ensures State() == Entry(name, help, kind, map[])
    {
      this.name := name;
      this.help := help;
      this.kind := kind;
      values := map[];
    }

    method SetWithLabels(labels: string, value: real)
      modifies this
      ensures values == old(values)[labels := value]
    {
      values := values[labels := value];
    }

    method IncrementWithLabels(labels: string, delta: real)
      modifies this
      ensures values == old(values)[labels := (if labels in old(values) then old(values)[labels] else 0.0) + delta]
    {
      if labels !in values {
        values := values[labels := 0.0];
      }
      values := values[labels := values[labels] + delta];
    }

    method Get(labels: string) returns (value: Option<real>)
      ensures value == if labels in values then Some(values[labels]) else None
    {
      value := if labels in values then Some(values[labels]) else None;
    }

    /** Appends the lines of this entry to `text`, its values in the order of their labels. */
    method RenderTo(text: string, fmt: real -> string) returns (out: string)
      ensures out == text + Unlines(EntryLines(State(), fmt))
    {
      hide Unlines, ValueLines, ValueText, Lex, HelpLine, TypeLine, KindEnd, Series;
      ghost var e := State();
      var head := "# HELP " + name + " " + help + "\n";
      head := head + ("# TYPE " + name + KindEnd(kind));
      HeadLines(name, help, kind);
      HeadText(HelpLine(name, help), TypeLine(name, kind), ValueLines(e, InOrder(values.Keys), fmt));
      out := text + head;
      ghost var goal := text + Unlines(EntryLines(e, fmt));
      var left := values.Keys;
      while left != {}
        invariant left <= values.Keys && State() == e
        invariant out + Unlines(ValueLines(e, InOrder(left), fmt)) == goal
      {
        LeastExists(left);
        var labels :| labels in left && IsLeast(labels, left);
        InOrderPicks(left, labels);
        ghost var rest := ValueLines(e, InOrder(left - {labels}), fmt);
        var line := Series(name, labels) + " " + ValueText(values[labels], fmt) + "\n";
        NextValue(e, labels, InOrder(left - {labels}), fmt);
        assert out + (line + Unlines(rest)) == out + line + Unlines(rest);
        out := out + line;
        left := left - {labels};
      }
      NothingLeft(e, fmt);
      assert out + "" == out;
    }
  }

  function KindEnd(kind: Kind): string {
    match kind
    case Counter => " counter\n"
    case Gauge => " gauge\n"
  }

  lemma HeadLines(name: string, help: string, kind: Kind)
    ensures "# HELP " + name + " " + help + "\n" == HelpLine(name, help) + "\n"
    ensures "# TYPE " + name + KindEnd(kind) == TypeLine(name, kind) + "\n"
  {
    assert KindEnd(kind) == " " + KindText(kind) + "\n";
  }

  lemma HeadText(help: string, kind: string, values: seq<string>)
    ensures Unlines([help, kind] + values) == (help + "\n") + (kind + "\n") + Unlines(values)
  {
    UnlinesAppends([help] + [kind], values);
    UnlinesAppends([help], [kind]);
    UnlinesOne(help);
    UnlinesOne(kind);
    assert [help] + [kind] == [help, kind];
  }

  lemma NothingLeft(e: Entry, fmt: real -> string)
    ensures Unlines(ValueLines(e, InOrder({}), fmt)) == ""
  {
  }

  type Metrics = map<string, MetricEntry>

  /** Each name has an entry of its own, made for that name. */
  ghost predicate Own(metrics: Metrics) {
    && (forall n :: n in metrics ==> metrics[n].name == n)
  }

  /** What the entries hold. */
  ghost function Entries(metrics: Metrics): (reg: Registry)
    reads set n | n in metrics :: metrics[n]
    ensures reg.Keys == metrics.Keys
    ensures forall n :: n in metrics ==> reg[n] == metrics[n].State()
  {
    map n | n in metrics :: metrics[n].State()
  }

  class MetricsRegistry {
    var metrics: Metrics

    ghost predicate Valid()
      reads this
    {
      Own(metrics)
    }

    ghost function State(): Registry
      reads this, set n | n in metrics :: metrics[n]
    {
      Entries(metrics)
    }

    constructor ()
      ensures Valid() && State() == map[]
    {
      metrics := map[];
    }

    /** Makes an entry, unless the name has one: then nothing changes, whatever the help and the kind. */
    method Register(name: string, help: string, kind: Kind)
      requires Valid()
      modifies this
      ensures Valid()
      ensures State() == if name in old(State()) then old(State())
                         else old(State())[name := Entry(name, help, kind, map[])]
    {
      if name !in metrics {
        var entry := new MetricEntry(name, help, kind);
        metrics := metrics[name := entry];
      }
    }

    /** Adds to a value of a registered metric; an unknown name changes nothing. */
    method CounterIncLabels(name: string, labels: string, delta: real)
      requires Valid()
      modifies set n | n in metrics :: metrics[n]
      ensures Valid() && metrics == old(metrics)
      ensures State() == Changed(old(State()), name, labels, value => value + delta)
    {
      if name in metrics {
        metrics[name].IncrementWithLabels(labels, delta);
      }
    }

    /** Sets a value of a registered metric; an unknown name changes nothing. */
    method GaugeSetLabels(name: string, labels: string, value: real)
      requires Valid()
      modifies set n | n in metrics :: metrics[n]
      ensures Valid() && metrics == old(metrics)
      ensures State() == Changed(old(State()), name, labels, _ => value)
    {
      if name in metrics {
        metrics[name].SetWithLabels(labels, value);
      }
    }

    method Get(name: string) returns (value: Option<real>)
      requires Valid()
      ensures value == if name in State() && "" in State()[name].values then Some(State()[name].values[""]) else None
    {
      if name in metrics {
        value := metrics[name].Get("");
      } else {
        value := None;
      }
    }

    method RenderPrometheus(fmt: real -> string) returns (out: string)
      requires Valid()
      ensures out == Render(State(), fmt)
    {
      hide Unlines, EntryLines, Lex;
      ghost var reg := State();
      out := "";
      var left := metrics.Keys;
      assert "" + Render(reg, fmt) == Render(reg, fmt);
      while left != {}
        invariant left <= metrics.Keys && State() == reg
        invariant out + Unlines(RegistryLines(reg, InOrder(left), fmt)) == Render(reg, fmt)
      {
        LeastExists(left);
        var name :| name in left && IsLeast(name, left);
        InOrderPicks(left, name);
        NextEntry(reg, name, InOrder(left - {name}), fmt);
        ghost var rest := Unlines(RegistryLines(reg, InOrder(left - {name}), fmt));
        assert out + (Unlines(EntryLines(reg[name], fmt)) + rest) == out + Unlines(EntryLines(reg[name], fmt)) + rest;
        out := metrics[name].RenderTo(out, fmt);
        left := left - {name};
      }
      NoEntryLeft(reg, fmt);
      assert out + "" == out;
    }
  }

  lemma NoEntryLeft(reg: Registry, fmt: real -> string)
    ensures Unlines(RegistryLines(reg, InOrder({}), fmt)) == ""
  {
  }
}
