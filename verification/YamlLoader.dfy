/** The fallback loader for the CI configuration (ci/common.py): line by line,
    with a current dictionary inside the result. Dictionaries are addressed by
    their path from the root. */
module YamlLoader {
  import opened Prelude
  import opened Text

  /** A float is named by the text it was read from. */
  datatype Value = Dict(entries: map<string, Value>) | Bool(b: bool) | Int(n: nat) | Float(text: string) | Str(text: string)

  type Path = seq<string>

  /** current is None before the first section. */
  datatype Loader = Loader(root: Value, section: Option<string>, current: Option<Path>)

  const START := Loader(Dict(map[]), None, None)

  // ---- Lines of a file -----------------------------------------------------

  /** Text mode turns each "\r\n" and each other "\r" into a newline. */
  function Universal(text: string): string {
    if text == "" then ""
    else if text[0] != '\r' then [text[0]] + Universal(text[1..])
    else "\n" + Universal(if |text| > 1 && text[1] == '\n' then text[2..] else text[1..])
  }

  /** Position behind the first newline, or the length. */
  function LineEnd(text: string): (i: nat)
    ensures i <= |text| && (text != "" ==> 0 < i)
  {
    if text == "" then 0 else if text[0] == '\n' then 1 else 1 + LineEnd(text[1..])
  }

  /** Each line keeps its newline. */
  function SplitLines(text: string): seq<string>
    decreases |text|
  {
    if text == "" then [] else [text[..LineEnd(text)]] + SplitLines(text[LineEnd(text)..])
  }

  /** What iterating over the open file gives. */
  function ReadLines(text: string): seq<string> {
    SplitLines(Universal(text))
  }

  function Join(lines: seq<string>): string {
    if lines == [] then "" else lines[0] + Join(lines[1..])
  }

  predicate Unbroken(s: string) {
    '\n' !in s && '\r' !in s
  }

  /** One whole line: a newline at the end and nowhere else. */
  predicate WholeLine(line: string) {
    line != "" && line[|line| - 1] == '\n' && Unbroken(line[..|line| - 1])
  }

  predicate WholeLines(lines: seq<string>) {
    forall l :: l in lines ==> WholeLine(l)
  }

  lemma {:induction false} UniversalSame(text: string)
    requires '\r' !in text
    ensures Universal(text) == text
  {
    if text != "" {
      assert text[0] in text;
      UniversalSame(text[1..]);
    }
  }

  lemma {:induction false} LineEndOf(line: string, rest: string)
    requires WholeLine(line)
    ensures LineEnd(line + rest) == |line|
  {
    var text := line + rest;
    if |line| > 1 {
      assert line[0] == line[..|line| - 1][0] != '\n';
      assert text[1..] == line[1..] + rest;
      assert line[1..][..|line[1..]| - 1] == line[..|line| - 1][1..];
      LineEndOf(line[1..], rest);
    }
  }

  lemma {:induction false} SplitJoin(lines: seq<string>)
    requires WholeLines(lines)
    ensures SplitLines(Join(lines)) == lines && '\r' !in Join(lines)
  {
    if lines != [] {
      var line, rest := lines[0], Join(lines[1..]);
      assert line in lines;
      SplitJoin(lines[1..]);
      LineEndOf(line, rest);
      assert (line + rest)[..|line|] == line && (line + rest)[|line|..] == rest;
      assert line == line[..|line| - 1] + "\n";
    }
  }

  /** Whole lines written one after the other are read back as those lines. */
  lemma LinesRoundTrip(lines: seq<string>)
    requires WholeLines(lines)
    ensures ReadLines(Join(lines)) == lines
  {
    SplitJoin(lines);
    UniversalSame(Join(lines));
  }

  /** The same text with Windows line ends. */
  function Windows(text: string): string {
    if text == "" then "" else (if text[0] == '\n' then "\r\n" else [text[0]]) + Windows(text[1..])
  }

  lemma {:induction false} UniversalWindows(text: string)
    requires '\r' !in text
    ensures Universal(Windows(text)) == text
  {
    if text != "" {
      assert text[0] in text;
      UniversalWindows(text[1..]);
      var w := Windows(text);
      if text[0] == '\n' {
        assert w[0] == '\r' && w[1] == '\n' && w[2..] == Windows(text[1..]);
      } else {
        assert w[0] == text[0] && w[1..] == Windows(text[1..]);
      }
    }
  }

  // ---- Dictionaries by path ------------------------------------------------

  function At(v: Value, path: Path): Option<Value>
    decreases |path|
  {
    if path == [] then Some(v)
    else if v.Dict? && path[0] in v.entries then At(v.entries[path[0]], path[1..])
    else None
  }

  /** current_dict[key] = x, where the current dictionary is the one at path. */
  function Put(v: Value, path: Path, key: string, x: Value): Value
    decreases |path|
  {
    if !v.Dict? then v
    else if path == [] then Dict(v.entries[key := x])
    else if path[0] in v.entries then Dict(v.entries[path[0] := Put(v.entries[path[0]], path[1..], key, x)])
    else v
  }

  predicate IsDict(v: Value, path: Path) {
    At(v, path).Some? && At(v, path).value.Dict?
  }

  // ---- One line ------------------------------------------------------------

  predicate Skipped(line: string) {
    var body := LStrip(RStrip(line));
    body == "" || body[0] == '#'
  }

  function Indent(line: string): nat {
    |line| - |LStrip(line)|
  }

  /** The value behind "key:", when there is one. */
  function Classify(text: string, isFloat: string -> bool): Value {
    if Lower(text) == "true" then Bool(true)
    else if Lower(text) == "false" then Bool(false)
    else if text != "" && AllDigits(text) then Int(Number(text))
    else if isFloat(text) then Float(text)
    else Str(text)
  }

  function Header(stripped: string): string
    requires EndsWithColon(stripped)
  {
    Strip(stripped[..|stripped| - 1])
  }

  /** What a line says, before it is known where it goes. */
  datatype Token = Nothing | Head(indent: nat, key: string) | Pair(key: string, text: string)

  function Tokenise(stripped: string, indent: nat): Token {
    if EndsWithColon(stripped) && (indent == 0 || indent == 2 || indent == 4) then Head(indent, Header(stripped))
    else
      var i := Colon(stripped);
      if i < |stripped| then Pair(Strip(stripped[..i]), Strip(stripped[i + 1..])) else Nothing
  }

  function Scan(line: string): Token {
    if Skipped(line) then Nothing else Tokenise(RStrip(line), Indent(line))
  }

  /** A new dictionary under the one at path, which becomes the current one. */
  function Descend(st: Loader, path: Path, key: string): Loader {
    st.(root := Put(st.root, path, key, Dict(map[])), current := Some(path + [key]))
  }

  function Act(st: Loader, t: Token, isFloat: string -> bool): Loader {
    if t.Head? && t.indent == 0 then Descend(st, [], t.key).(section := Some(t.key))
    else if st.section.None? || st.current.None? then st
    else
      match t
      case Nothing => st
      case Head(indent, key) =>
        if indent != 2 then Descend(st, st.current.value, key)
        else if IsDict(st.root, [st.section.value]) then Descend(st, [st.section.value], key)
        else st
      case Pair(key, text) =>
        if text == "" then Descend(st, st.current.value, key)
        else st.(root := Put(st.root, st.current.value, key, Classify(text, isFloat)))
  }

  function Step(st: Loader, line: string, isFloat: string -> bool): Loader {
    Act(st, Scan(line), isFloat)
  }

  function Steps(st: Loader, lines: seq<string>, isFloat: string -> bool): Loader
    decreases |lines|
  {
    if lines == [] then st else Steps(Step(st, lines[0], isFloat), lines[1..], isFloat)
  }

  function Load(lines: seq<string>, isFloat: string -> bool): Value {
    Steps(START, lines, isFloat).root
  }

  /** Loading a file with this text. */
  function LoadFile(text: string, isFloat: string -> bool): Value {
    Load(ReadLines(text), isFloat)
  }

  lemma {:induction false} StepsConcat(st: Loader, a: seq<string>, b: seq<string>, isFloat: string -> bool)
    ensures Steps(st, a + b, isFloat) == Steps(Steps(st, a, isFloat), b, isFloat)
    decreases |a|
  {
    if a == [] {
      assert a + b == b;
    } else {
      assert (a + b)[1..] == a[1..] + b;
      StepsConcat(Step(st, a[0], isFloat), a[1..], b, isFloat);
    }
  }

  const KEPT: string -> bool := (l: string) => !Skipped(l)

  /** Blank and comment lines anywhere change nothing. */
  lemma {:induction false} CommentsIgnored(st: Loader, lines: seq<string>, isFloat: string -> bool)
    ensures Steps(st, lines, isFloat) == Steps(st, Filter(lines, KEPT), isFloat)
    decreases |lines|
  {
    if lines != [] {
      CommentsIgnored(Step(st, lines[0], isFloat), lines[1..], isFloat);
    }
  }

  predicate Blank(s: string) {
    forall i :: 0 <= i < |s| ==> IsSpace(s[i])
  }

  lemma {:induction false} LeadingBlank(s: string) returns (i: nat)
    ensures i <= |s| && Blank(s[..i]) && LStrip(s) == s[i..] && (i < |s| ==> !IsSpace(s[i]))
  {
    i := 0;
    if s != "" && IsSpace(s[0]) {
      var j := LeadingBlank(s[1..]);
      i := j + 1;
      assert s[..i] == [s[0]] + s[1..][..j];
    }
  }

  lemma {:induction false} TrailingBlank(s: string) returns (n: nat)
    ensures n <= |s| && Blank(s[n..]) && RStrip(s) == s[..n] && (0 < n ==> !IsSpace(s[n - 1]))
  {
    n := |s|;
    if s != "" && IsSpace(s[|s| - 1]) {
      n := TrailingBlank(s[..|s| - 1]);
      assert s[n..] == s[..|s| - 1][n..] + [s[|s| - 1]];
    }
  }

  /** The first character that is not white space is a hash sign. */
  predicate Comment(line: string) {
    exists i :: 0 <= i < |line| && line[i] == '#' && Blank(line[..i])
  }

  lemma FirstInk(s: string, i: nat, j: nat)
    requires i < |s| && j < |s| && Blank(s[..i]) && Blank(s[..j]) && !IsSpace(s[i]) && !IsSpace(s[j])
    ensures i == j
  {
    forall k | 0 <= k < i ensures IsSpace(s[k]) {
      assert s[..i][k] == s[k];
    }
    forall k | 0 <= k < j ensures IsSpace(s[k]) {
      assert s[..j][k] == s[k];
    }
  }

  /** The lines passed over are the blank ones and the comments. */
  lemma SkippedIff(line: string)
    ensures Skipped(line) <==> Blank(line) || Comment(line)
  {
    var n := TrailingBlank(line);
    var i := LeadingBlank(line[..n]);
    if i == n {
      forall j | 0 <= j < |line| ensures IsSpace(line[j]) {
        assert if j < n then line[j] == line[..n][..i][j] else line[j] == line[n..][j - n];
      }
    } else {
      assert line[..i] == line[..n][..i] && line[i] == line[..n][i];
      if Comment(line) {
        var j :| 0 <= j < |line| && line[j] == '#' && Blank(line[..j]);
        FirstInk(line, i, j);
      }
    }
  }

  /** Nothing is read before the first header without an indent. */
  lemma {:induction false} NothingBefore(lines: seq<string>, isFloat: string -> bool)
    requires forall l :: l in lines ==> !(Scan(l).Head? && Scan(l).indent == 0)
    ensures Steps(START, lines, isFloat) == START
    decreases |lines|
  {
    if lines != [] {
      assert lines[0] in lines;
      assert Step(START, lines[0], isFloat) == START;
      NothingBefore(lines[1..], isFloat);
    }
  }

  // ---- The current dictionary is always there ------------------------------

  lemma {:induction false} PutAt(v: Value, path: Path, key: string, x: Value)
    requires IsDict(v, path)
    ensures IsDict(Put(v, path, key, x), path)
    ensures At(Put(v, path, key, x), path).value == Dict(At(v, path).value.entries[key := x])
    ensures At(Put(v, path, key, x), path + [key]) == Some(x)
    decreases |path|
  {
    if path != [] {
      PutAt(v.entries[path[0]], path[1..], key, x);
      assert (path + [key])[1..] == path[1..] + [key];
    } else {
      assert ([] + [key])[1..] == [];
    }
  }

  /** Writing below a path keeps the dictionaries along it. */
  lemma {:induction false} PutKeeps(v: Value, path: Path, key: string, x: Value, n: nat)
    requires IsDict(v, path) && n <= |path|
    ensures IsDict(Put(v, path, key, x), path[..n])
    decreases |path|
  {
    if n > 0 {
      PutKeeps(v.entries[path[0]], path[1..], key, x, n - 1);
      assert path[..n][1..] == path[1..][..n - 1];
    }
  }

  /** The section and the current dictionary are dictionaries inside the result,
      the latter inside the former. */
  predicate Anchored(st: Loader) {
    && st.root.Dict?
    && (st.section.Some? <==> st.current.Some?)
    && (st.section.Some? ==>
          && st.current.value != [] && st.current.value[0] == st.section.value
          && IsDict(st.root, [st.section.value]) && IsDict(st.root, st.current.value))
  }

  lemma PutAnchored(st: Loader, path: Path, key: string, x: Value)
    requires Anchored(st) && st.section.Some? && path != [] && path[0] == st.section.value && IsDict(st.root, path)
    ensures var root := Put(st.root, path, key, x);
            root.Dict? && IsDict(root, [st.section.value]) && IsDict(root, path) && At(root, path + [key]) == Some(x)
  {
    PutAt(st.root, path, key, x);
    PutKeeps(st.root, path, key, x, 1);
    assert path[..1] == [st.section.value];
  }

  lemma ActAnchored(st: Loader, t: Token, isFloat: string -> bool)
    requires Anchored(st)
    ensures Anchored(Act(st, t, isFloat))
  {
    if t.Head? && t.indent == 0 {
      PutAt(st.root, [], t.key, Dict(map[]));
      assert [] + [t.key] == [t.key];
    } else if st.section.Some? {
      match t
      case Nothing =>
      case Head(indent, key) =>
        PutAnchored(st, if indent != 2 then st.current.value else [st.section.value], key, Dict(map[]));
      case Pair(key, text) =>
        PutAnchored(st, st.current.value, key, if text == "" then Dict(map[]) else Classify(text, isFloat));
    }
  }

  /** For any text at all, the loader's current dictionary is never detached
      from the result it will return. */
  lemma {:induction false} NeverDetached(st: Loader, lines: seq<string>, isFloat: string -> bool)
    requires Anchored(st)
    ensures Anchored(Steps(st, lines, isFloat))
    decreases |lines|
  {
    if lines != [] {
      ActAnchored(st, Scan(lines[0]), isFloat);
      NeverDetached(Step(st, lines[0], isFloat), lines[1..], isFloat);
    }
  }

  // ---- Canonical printing --------------------------------------------------

  type Scalars = seq<(string, Value)>

  /** A key without a value, and the scalars behind it, each with an indent of its own. */
  datatype Nest = Nest(margin: string, key: string, inner: string, scalars: Scalars)

  datatype Sub = Sub(name: string, scalars: Scalars, nests: seq<Nest>)

  datatype Section = Section(name: string, scalars: Scalars, nests: seq<Nest>, subs: seq<Sub>)

  type Config = seq<Section>

  function Show(v: Value): string {
    match v
    case Dict(_) => ""
    case Bool(b) => if b then "true" else "false"
    case Int(n) => Decimal(n)
    case Float(t) => t
    case Str(t) => t
  }

  function ShowScalars(margin: string, ss: Scalars): seq<string> {
    if ss == [] then []
    else ShowScalars(margin, ss[..|ss| - 1]) + [margin + (ss[|ss| - 1].0 + (": " + (Show(ss[|ss| - 1].1) + "\n")))]
  }

  function NestHead(n: Nest): string {
    n.margin + (n.key + ":\n")
  }

  function ShowNests(nests: seq<Nest>): seq<string> {
    if nests == [] then []
    else
      var n := nests[0];
      [NestHead(n)] + (ShowScalars(n.inner, n.scalars) + ShowNests(nests[1..]))
  }

  function ShowBody(margin: string, ss: Scalars, nests: seq<Nest>): seq<string> {
    ShowScalars(margin, ss) + ShowNests(nests)
  }

  function ShowSubs(subs: seq<Sub>): seq<string> {
    if subs == [] then []
    else
      var s := subs[|subs| - 1];
      ShowSubs(subs[..|subs| - 1]) + (["  " + (s.name + ":\n")] + ShowBody("    ", s.scalars, s.nests))
  }

  function ShowSection(s: Section): seq<string> {
    ["" + (s.name + ":\n")] + (ShowBody("  ", s.scalars, s.nests) + ShowSubs(s.subs))
  }

  function ShowConfig(c: Config): seq<string> {
    if c == [] then [] else ShowConfig(c[..|c| - 1]) + ShowSection(c[|c| - 1])
  }

  // ---- What a config means -------------------------------------------------

  function ScalarMap(ss: Scalars): map<string, Value> {
    if ss == [] then map[] else ScalarMap(ss[..|ss| - 1])[ss[|ss| - 1].0 := ss[|ss| - 1].1]
  }

  /** Each nest lies inside the one before it, whatever their indents: the
      loader never goes back to an outer dictionary before the next header of
      indent 0 or 2. */
  function NestMap(nests: seq<Nest>): map<string, Value>
    decreases |nests|, 0
  {
    if nests == [] then map[] else map[nests[0].key := Dict(BodyMap(nests[0].scalars, nests[1..]))]
  }

  function BodyMap(ss: Scalars, nests: seq<Nest>): map<string, Value>
    decreases |nests|, 1
  {
    ScalarMap(ss) + NestMap(nests)
  }

  function SubMap(base: map<string, Value>, subs: seq<Sub>): map<string, Value> {
    if subs == [] then base
    else SubMap(base, subs[..|subs| - 1])[subs[|subs| - 1].name := Dict(BodyMap(subs[|subs| - 1].scalars, subs[|subs| - 1].nests))]
  }

  function SectionDict(s: Section): Value {
    Dict(SubMap(BodyMap(s.scalars, s.nests), s.subs))
  }

  /** The dictionary of a config; a name that occurs again replaces what it named. */
  function Meaning(c: Config): map<string, Value> {
    if c == [] then map[] else Meaning(c[..|c| - 1])[c[|c| - 1].name := SectionDict(c[|c| - 1])]
  }

  /** A section is found under its name, unless a later one has the same name. */
  lemma {:induction false} SectionFound(c: Config, i: nat)
    requires i < |c| && forall j :: i < j < |c| ==> c[j].name != c[i].name
    ensures c[i].name in Meaning(c) && Meaning(c)[c[i].name] == SectionDict(c[i])
  {
    if i < |c| - 1 {
      var init := c[..|c| - 1];
      assert forall j :: 0 <= j < |init| ==> init[j] == c[j];
      SectionFound(init, i);
    }
  }

  lemma {:induction false} ScalarFound(ss: Scalars, i: nat)
    requires i < |ss| && forall j :: i < j < |ss| ==> ss[j].0 != ss[i].0
    ensures ss[i].0 in ScalarMap(ss) && ScalarMap(ss)[ss[i].0] == ss[i].1
  {
    if i < |ss| - 1 {
      var init := ss[..|ss| - 1];
      assert forall j :: 0 <= j < |init| ==> init[j] == ss[j];
      ScalarFound(init, i);
    }
  }

  lemma {:induction false} SubFound(base: map<string, Value>, subs: seq<Sub>, i: nat)
    requires i < |subs| && forall j :: i < j < |subs| ==> subs[j].name != subs[i].name
    ensures subs[i].name in SubMap(base, subs) && SubMap(base, subs)[subs[i].name] == Dict(BodyMap(subs[i].scalars, subs[i].nests))
  {
    if i < |subs| - 1 {
      var init := subs[..|subs| - 1];
      assert forall j :: 0 <= j < |init| ==> init[j] == subs[j];
      SubFound(base, init, i);
    }
  }

  // ---- Which names and scalars can be printed ------------------------------

  predicate GoodKey(k: string) {
    Trimmed(k) && ':' !in k && Unbroken(k) && (k == "" || k[0] != '#')
  }

  /** Not empty, on one line, no outer white space, no colon at the end. */
  predicate GoodText(t: string) {
    t != "" && Trimmed(t) && Unbroken(t) && t[|t| - 1] != ':'
  }

  /** Texts that would be read as something else are not strings or floats. */
  predicate GoodScalar(v: Value, isFloat: string -> bool) {
    match v
    case Dict(_) => false
    case Bool(_) => true
    case Int(_) => true
    case Float(t) => GoodText(t) && isFloat(t) && !AllDigits(t) && Lower(t) != "true" && Lower(t) != "false"
    case Str(t) => GoodText(t) && !isFloat(t) && !AllDigits(t) && Lower(t) != "true" && Lower(t) != "false"
  }

  predicate GoodScalars(ss: Scalars, isFloat: string -> bool) {
    forall s :: s in ss ==> GoodKey(s.0) && GoodScalar(s.1, isFloat)
  }

  /** Behind an indent of 0 or 2 the key would open a section or a subsection. */
  predicate GoodNests(nests: seq<Nest>, isFloat: string -> bool) {
    forall n :: n in nests ==> Margin(n.margin) && |n.margin| != 0 && |n.margin| != 2 && GoodKey(n.key)
                               && Margin(n.inner) && GoodScalars(n.scalars, isFloat)
  }

  predicate GoodSubs(subs: seq<Sub>, isFloat: string -> bool) {
    forall s :: s in subs ==> GoodKey(s.name) && GoodScalars(s.scalars, isFloat) && GoodNests(s.nests, isFloat)
  }

  predicate GoodConfig(c: Config, isFloat: string -> bool) {
    forall s :: s in c ==>
      GoodKey(s.name) && GoodScalars(s.scalars, isFloat) && GoodNests(s.nests, isFloat) && GoodSubs(s.subs, isFloat)
  }

  // ---- Reading back one scalar ---------------------------------------------

  lemma {:induction false} LowerOfDigits(s: string)
    requires AllDigits(s)
    ensures Lower(s) == s
  {
    if s != "" {
      LowerOfDigits(s[1..]);
    }
  }

  lemma LowerLiterals()
    ensures Lower("true") == "true" && Lower("false") == "false"
  {
    assert "true"[1..] == "rue" && "rue"[1..] == "ue" && "ue"[1..] == "e" && "e"[1..] == "";
    assert Lower("ue") == "ue" && Lower("rue") == "rue";
    assert "false"[1..] == "alse" && "alse"[1..] == "lse" && "lse"[1..] == "se" && "se"[1..] == "e";
    assert Lower("se") == "se" && Lower("lse") == "lse" && Lower("alse") == "alse";
  }

  /** Booleans are read in any case. */
  lemma AnyCase(t: string, isFloat: string -> bool)
    ensures Classify(t, isFloat) == Bool(true) <==>
            && |t| == 4 && (t[0] == 't' || t[0] == 'T') && (t[1] == 'r' || t[1] == 'R')
            && (t[2] == 'u' || t[2] == 'U') && (t[3] == 'e' || t[3] == 'E')
    ensures Classify(t, isFloat) == Bool(false) <==>
            && |t| == 5 && (t[0] == 'f' || t[0] == 'F') && (t[1] == 'a' || t[1] == 'A') && (t[2] == 'l' || t[2] == 'L')
            && (t[3] == 's' || t[3] == 'S') && (t[4] == 'e' || t[4] == 'E')
  {
    LowerAt(t);
    var l := Lower(t);
    assert |l| == 4 ==> l == [l[0], l[1], l[2], l[3]];
    assert |l| == 5 ==> l == [l[0], l[1], l[2], l[3], l[4]];
  }

  lemma {:induction false} LowerAt(s: string)
    ensures forall i :: 0 <= i < |s| ==> Lower(s)[i] == LowerChar(s[i])
  {
    if s != "" {
      LowerAt(s[1..]);
    }
  }

  lemma ClassifyDecimal(n: nat, isFloat: string -> bool)
    ensures Classify(Decimal(n), isFloat) == Int(n) && GoodText(Decimal(n))
  {
    DecimalIsText(n);
    LowerOfDigits(Decimal(n));
    LowerLiterals();
    NumberOfDecimal(n);
    assert IsDigit(Decimal(n)[0]);
  }

  lemma DecimalIsText(n: nat)
    ensures GoodText(Decimal(n))
  {
    var d := Decimal(n);
    assert IsDigit(d[0]) && IsDigit(d[|d| - 1]);
    assert Trimmed(d);
    assert Unbroken(d) by {
      forall c | c in d ensures IsDigit(c) {
        var i :| 0 <= i < |d| && d[i] == c;
      }
    }
  }

  lemma ClassifyShown(v: Value, isFloat: string -> bool)
    requires GoodScalar(v, isFloat)
    ensures Classify(Show(v), isFloat) == v && GoodText(Show(v))
  {
    match v
    case Bool(b) => LowerLiterals();
    case Int(n) => ClassifyDecimal(n, isFloat);
    case _ =>
  }

  // ---- Reading back one line -----------------------------------------------

  /** An indent of blanks. */
  predicate Margin(m: string) {
    forall i :: 0 <= i < |m| ==> m[i] == ' '
  }

  lemma StripNewline(s: string)
    requires s != "" && !IsSpace(s[|s| - 1])
    ensures RStrip(s + "\n") == s
  {
    assert (s + "\n")[..|s|] == s;
  }

  lemma {:induction false} StripMargin(m: string, s: string)
    requires (forall i :: 0 <= i < |m| ==> IsSpace(m[i])) && (s == "" || !IsSpace(s[0]))
    ensures LStrip(m + s) == s
  {
    if m == "" {
      assert m + s == s;
    } else {
      assert (m + s)[1..] == m[1..] + s;
      StripMargin(m[1..], s);
    }
  }

  lemma {:induction false} FirstColon(k: string, rest: string)
    requires ':' !in k
    ensures Colon(k + (":" + rest)) == |k|
  {
    var s := k + (":" + rest);
    if k != "" {
      assert k[0] in k && s[1..] == k[1..] + (":" + rest);
      FirstColon(k[1..], rest);
    }
  }

  lemma StripTrimmed(m: string, k: string)
    requires Margin(m) && Trimmed(k)
    ensures Strip(m + k) == k
  {
    StripMargin(m, k);
  }

  predicate Body(s: string) {
    s != "" && !IsSpace(s[0]) && !IsSpace(s[|s| - 1]) && s[0] != '#'
  }

  lemma LineStripped(m: string, body: string)
    requires Margin(m) && Body(body)
    ensures RStrip(m + (body + "\n")) == m + body
  {
    var s := m + body;
    assert s[|s| - 1] == body[|body| - 1];
    assert m + (body + "\n") == s + "\n";
    StripNewline(s);
  }

  lemma LineIndent(m: string, body: string)
    requires Margin(m) && Body(body)
    ensures Indent(m + (body + "\n")) == |m|
  {
    assert (body + "\n")[0] == body[0];
    StripMargin(m, body + "\n");
  }

  lemma LineKept(m: string, body: string)
    requires Margin(m) && Body(body)
    ensures !Skipped(m + (body + "\n"))
  {
    LineStripped(m, body);
    StripMargin(m, body);
  }

  lemma ScanLine(m: string, body: string)
    requires Margin(m) && Body(body)
    ensures Scan(m + (body + "\n")) == Tokenise(m + body, |m|)
  {
    LineStripped(m, body);
    LineIndent(m, body);
    LineKept(m, body);
  }

  lemma HeadToken(m: string, k: string)
    requires Margin(m) && (|m| == 0 || |m| == 2 || |m| == 4) && Trimmed(k)
    ensures Tokenise(m + (k + ":"), |m|) == Head(|m|, k)
  {
    var s := m + (k + ":");
    assert s[|s| - 1] == ':';
    assert s[..|s| - 1] == m + k;
    StripTrimmed(m, k);
  }

  lemma HeaderLine(m: string, k: string)
    requires Margin(m) && (|m| == 0 || |m| == 2 || |m| == 4) && GoodKey(k)
    ensures Scan(m + (k + ":\n")) == Head(|m|, k)
  {
    var body := k + ":";
    assert m + (k + ":\n") == m + (body + "\n");
    assert body[|body| - 1] == ':';
    assert k != "" ==> body[0] == k[0];
    ScanLine(m, body);
    HeadToken(m, k);
  }

  lemma StripSpace(t: string)
    requires Trimmed(t)
    ensures Strip(" " + t) == t
  {
    StripMargin(" ", t);
  }

  lemma Regroup(m: string, k: string, t: string)
    ensures m + (k + (": " + t)) == (m + k) + (":" + (" " + t))
  {
    assert ": " + t == ":" + (" " + t);
    assert m + (k + (":" + (" " + t))) == (m + k) + (":" + (" " + t));
  }

  lemma SplitAt(front: string, back: string)
    requires ':' !in front && back != "" && back[|back| - 1] != ':'
    ensures var s := front + (":" + back);
            && !EndsWithColon(s) && Colon(s) == |front| < |s|
            && s[..|front|] == front && s[|front| + 1..] == back
  {
    var s := front + (":" + back);
    FirstColon(front, back);
    assert s[|s| - 1] == back[|back| - 1];
  }

  /** Where a printed "key: text" splits. */
  lemma PairSplit(m: string, k: string, t: string)
    requires Margin(m) && ':' !in k && GoodText(t)
    ensures var s := m + (k + (": " + t));
            && !EndsWithColon(s) && Colon(s) == |m + k| < |s|
            && s[..|m + k|] == m + k && s[|m + k| + 1..] == " " + t
  {
    Regroup(m, k, t);
    assert ':' !in m && ':' !in m + k;
    assert (" " + t)[|" " + t| - 1] == t[|t| - 1];
    SplitAt(m + k, " " + t);
  }

  lemma PairToken(m: string, k: string, t: string)
    requires Margin(m) && Trimmed(k) && ':' !in k && GoodText(t)
    ensures Tokenise(m + (k + (": " + t)), |m|) == Pair(k, t)
  {
    var s, i := m + (k + (": " + t)), |m + k|;
    PairSplit(m, k, t);
    var front, back := s[..i], s[i + 1..];
    assert front == m + k && back == " " + t;
    StripTrimmed(m, k);
    StripSpace(t);
    TokenOfPair(s, i, |m|);
  }

  lemma TokenOfPair(s: string, i: nat, indent: nat)
    requires !EndsWithColon(s) && Colon(s) == i < |s|
    ensures Tokenise(s, indent) == Pair(Strip(s[..i]), Strip(s[i + 1..]))
  {
  }

  lemma PairLine(m: string, k: string, t: string)
    requires Margin(m) && GoodKey(k) && GoodText(t)
    ensures Scan(m + (k + (": " + (t + "\n")))) == Pair(k, t)
  {
    var body := k + (": " + t);
    assert m + (k + (": " + (t + "\n"))) == m + (body + "\n");
    assert body[|body| - 1] == t[|t| - 1];
    assert k != "" ==> body[0] == k[0];
    ScanLine(m, body);
    PairToken(m, k, t);
  }

  /** A printed scalar sets its key in the current dictionary. */
  lemma ScalarLine(st: Loader, m: string, k: string, v: Value, isFloat: string -> bool)
    requires Margin(m) && GoodKey(k) && GoodScalar(v, isFloat) && st.section.Some? && st.current.Some?
    ensures Step(st, m + (k + (": " + (Show(v) + "\n"))), isFloat) == st.(root := Put(st.root, st.current.value, k, v))
  {
    ClassifyShown(v, isFloat);
    PairLine(m, k, Show(v));
  }

  lemma BareToken(m: string, k: string)
    requires Margin(m) && |m| != 0 && |m| != 2 && |m| != 4 && GoodKey(k)
    ensures Tokenise(m + (k + ":"), |m|) == Pair(k, "")
  {
    var s := m + (k + ":");
    assert s == (m + k) + (":" + "");
    assert ':' !in m && ':' !in m + k;
    FirstColon(m + k, "");
    assert s[..|m + k|] == m + k && s[|m + k| + 1..] == "";
    StripTrimmed(m, k);
    assert Strip("") == "";
  }

  /** A key without a value behind any indent but 0 and 2 opens a dictionary
      under it in the current one, which becomes the current one. */
  lemma BareKeyLine(st: Loader, m: string, k: string, isFloat: string -> bool)
    requires Margin(m) && |m| != 0 && |m| != 2 && GoodKey(k) && st.section.Some? && st.current.Some?
    ensures Step(st, m + (k + ":\n"), isFloat)
            == Loader(Put(st.root, st.current.value, k, Dict(map[])), st.section, Some(st.current.value + [k]))
  {
    if |m| == 4 {
      HeaderLine(m, k);
    } else {
      var body := k + ":";
      assert m + (k + ":\n") == m + (body + "\n");
      assert body[|body| - 1] == ':';
      assert k != "" ==> body[0] == k[0];
      ScanLine(m, body);
      BareToken(m, k);
    }
  }

  // ---- Reading back a whole config -----------------------------------------

  lemma {:induction false} ScalarsRead(st: Loader, m: string, ss: Scalars, isFloat: string -> bool)
    requires Margin(m) && GoodScalars(ss, isFloat) && st.section.Some? && st.current.Some?
    requires IsDict(st.root, st.current.value) && At(st.root, st.current.value).value == Dict(map[])
    ensures var e := Steps(st, ShowScalars(m, ss), isFloat);
            && e.section == st.section && e.current == st.current
            && e.root == Replace(st.root, st.current.value, Dict(ScalarMap(ss)))
            && IsDict(e.root, e.current.value) && At(e.root, e.current.value).value == Dict(ScalarMap(ss))
  {
    var path := st.current.value;
    if ss == [] {
      ReplaceSame(st.root, path);
    } else {
      var init, last := ss[..|ss| - 1], ss[|ss| - 1];
      assert last in ss;
      ScalarsRead(st, m, init, isFloat);
      var e := Steps(st, ShowScalars(m, init), isFloat);
      var line := m + (last.0 + (": " + (Show(last.1) + "\n")));
      StepsConcat(st, ShowScalars(m, init), [line], isFloat);
      ScalarLine(e, m, last.0, last.1, isFloat);
      assert Steps(e, [line], isFloat) == Step(e, line, isFloat);
      PutAt(e.root, path, last.0, last.1);
      PutReplace(st.root, path, Dict(ScalarMap(init)), last.0, last.1);
    }
  }

  /** The value with the one at path replaced. */
  function Replace(v: Value, path: Path, x: Value): Value
    requires IsDict(v, path)
    decreases |path|
  {
    if path == [] then x else Dict(v.entries[path[0] := Replace(v.entries[path[0]], path[1..], x)])
  }

  lemma {:induction false} ReplaceSame(v: Value, path: Path)
    requires IsDict(v, path)
    ensures Replace(v, path, At(v, path).value) == v
    decreases |path|
  {
    if path != [] {
      ReplaceSame(v.entries[path[0]], path[1..]);
      assert v.entries[path[0] := v.entries[path[0]]] == v.entries;
    }
  }

  lemma {:induction false} PutReplace(v: Value, path: Path, d: Value, key: string, x: Value)
    requires IsDict(v, path) && d.Dict?
    ensures Put(Replace(v, path, d), path, key, x) == Replace(v, path, Dict(d.entries[key := x]))
    decreases |path|
  {
    if path != [] {
      PutReplace(v.entries[path[0]], path[1..], d, key, x);
    }
  }

  lemma {:induction false} ReplaceTwice(v: Value, path: Path, x: Value, y: Value)
    requires IsDict(v, path) && x.Dict?
    ensures IsDict(Replace(v, path, x), path) && At(Replace(v, path, x), path) == Some(x)
    ensures Replace(Replace(v, path, x), path, y) == Replace(v, path, y)
    decreases |path|
  {
    if path != [] {
      ReplaceTwice(v.entries[path[0]], path[1..], x, y);
      var w := Replace(v.entries[path[0]], path[1..], x);
      assert v.entries[path[0] := w][path[0] := Replace(w, path[1..], y)] == v.entries[path[0] := Replace(w, path[1..], y)];
    }
  }

  /** Replacing a dictionary just opened under a key of the one at path. */
  lemma {:induction false} ReplaceBelow(v: Value, path: Path, key: string, y: Value)
    requires IsDict(v, path)
    ensures var w := Put(v, path, key, Dict(map[]));
            && IsDict(w, path + [key]) && At(w, path + [key]) == Some(Dict(map[]))
            && Replace(w, path + [key], y) == Replace(v, path, Dict(At(v, path).value.entries[key := y]))
    decreases |path|
  {
    PutAt(v, path, key, Dict(map[]));
    if path == [] {
      assert [] + [key] == [key] && [key][1..] == [];
      assert v.entries[key := Dict(map[])][key := y] == v.entries[key := y];
    } else {
      var below := v.entries[path[0]];
      ReplaceBelow(below, path[1..], key, y);
      assert (path + [key])[0] == path[0] && (path + [key])[1..] == path[1..] + [key];
      var w, z := Put(below, path[1..], key, Dict(map[])), Replace(below, path[1..], Dict(At(below, path[1..]).value.entries[key := y]));
      assert v.entries[path[0] := w][path[0] := z] == v.entries[path[0] := z];
    }
  }

  /** A nest adds to the current dictionary and replaces what its key had there. */
  lemma NestMapCons(d: map<string, Value>, nests: seq<Nest>)
    requires nests != []
    ensures d + NestMap(nests) == d[nests[0].key := Dict(BodyMap(nests[0].scalars, nests[1..]))]
  {
  }

  /** Reading back nested keys below whatever dictionary is current: each puts
      its scalars under its own key there, leaves the rest, and becomes current. */
  lemma {:induction false} NestsRead(st: Loader, nests: seq<Nest>, isFloat: string -> bool)
    requires GoodNests(nests, isFloat) && st.section.Some? && st.current.Some? && IsDict(st.root, st.current.value)
    ensures var e := Steps(st, ShowNests(nests), isFloat);
            && e.section == st.section && e.current.Some?
            && e.root == Replace(st.root, st.current.value, Dict(At(st.root, st.current.value).value.entries + NestMap(nests)))
    decreases |nests|
  {
    var path := st.current.value;
    var d := At(st.root, path).value.entries;
    if nests == [] {
      assert d + map[] == d;
      ReplaceSame(st.root, path);
    } else {
      var n, rest := nests[0], nests[1..];
      assert n in nests;
      NestMapCons(d, nests);
      NestSteps(st, n, ShowNests(rest), isFloat);
      NestRead(st, n, isFloat);
      var e := Steps(st, [NestHead(n)] + ShowScalars(n.inner, n.scalars), isFloat);
      NestsRead(e, rest, isFloat);
      var inside, below := Put(st.root, path, n.key, Dict(map[])), path + [n.key];
      ReplaceBelow(st.root, path, n.key, Dict(BodyMap(n.scalars, rest)));
      ReplaceTwice(inside, below, Dict(ScalarMap(n.scalars)), Dict(BodyMap(n.scalars, rest)));
    }
  }

  lemma NestSteps(st: Loader, n: Nest, more: seq<string>, isFloat: string -> bool)
    ensures Steps(st, [NestHead(n)] + (ShowScalars(n.inner, n.scalars) + more), isFloat)
            == Steps(Steps(st, [NestHead(n)] + ShowScalars(n.inner, n.scalars), isFloat), more, isFloat)
  {
    StepsThree(st, [NestHead(n)], ShowScalars(n.inner, n.scalars), more, isFloat);
  }

  lemma StepsThree(st: Loader, a: seq<string>, b: seq<string>, c: seq<string>, isFloat: string -> bool)
    ensures Steps(st, a + (b + c), isFloat) == Steps(Steps(st, a + b, isFloat), c, isFloat)
  {
    assert a + (b + c) == (a + b) + c;
    StepsConcat(st, a + b, c, isFloat);
  }

  /** One key without a value and the scalars behind it. */
  lemma NestRead(st: Loader, n: Nest, isFloat: string -> bool)
    requires GoodNests([n], isFloat) && st.section.Some? && st.current.Some? && IsDict(st.root, st.current.value)
    ensures var inside, path := Put(st.root, st.current.value, n.key, Dict(map[])), st.current.value + [n.key];
            var e := Steps(st, [NestHead(n)] + ShowScalars(n.inner, n.scalars), isFloat);
            && e.section == st.section && e.current == Some(path) && IsDict(inside, path)
            && e.root == Replace(inside, path, Dict(ScalarMap(n.scalars)))
            && At(e.root, path) == Some(Dict(ScalarMap(n.scalars)))
  {
    assert n in [n];
    BareKeyLine(st, n.margin, n.key, isFloat);
    PutAt(st.root, st.current.value, n.key, Dict(map[]));
    var f := Step(st, NestHead(n), isFloat);
    assert ([NestHead(n)] + ShowScalars(n.inner, n.scalars))[1..] == ShowScalars(n.inner, n.scalars);
    ScalarsRead(f, n.inner, n.scalars, isFloat);
  }

  /** Scalars and nested keys in a dictionary that was just opened. */
  lemma BodyRead(st: Loader, m: string, ss: Scalars, nests: seq<Nest>, isFloat: string -> bool)
    requires Margin(m) && GoodScalars(ss, isFloat) && GoodNests(nests, isFloat) && st.section.Some? && st.current.Some?
    requires IsDict(st.root, st.current.value) && At(st.root, st.current.value).value == Dict(map[])
    ensures var e := Steps(st, ShowBody(m, ss, nests), isFloat);
            && e.section == st.section && e.current.Some?
            && e.root == Replace(st.root, st.current.value, Dict(BodyMap(ss, nests)))
  {
    var path := st.current.value;
    StepsConcat(st, ShowScalars(m, ss), ShowNests(nests), isFloat);
    ScalarsRead(st, m, ss, isFloat);
    NestsRead(Steps(st, ShowScalars(m, ss), isFloat), nests, isFloat);
    ReplaceTwice(st.root, path, Dict(ScalarMap(ss)), Dict(BodyMap(ss, nests)));
  }

  /** Reading back one subsection, the section's dictionary being base. */
  lemma SubRead(e: Loader, top: map<string, Value>, name: string, base: map<string, Value>, s: Sub, isFloat: string -> bool)
    requires GoodKey(s.name) && GoodScalars(s.scalars, isFloat) && GoodNests(s.nests, isFloat)
    requires e.root == Dict(top[name := Dict(base)]) && e.section == Some(name) && e.current.Some?
    ensures var f := Steps(e, ["  " + (s.name + ":\n")] + ShowBody("    ", s.scalars, s.nests), isFloat);
            && f.root == Dict(top[name := Dict(base[s.name := Dict(BodyMap(s.scalars, s.nests))])])
            && f.section == Some(name) && f.current.Some?
  {
    var head, rest := "  " + (s.name + ":\n"), ShowBody("    ", s.scalars, s.nests);
    HeaderLine("  ", s.name);
    assert ([head] + rest)[1..] == rest;
    SubHead(e, top, name, base, s.name, isFloat);
    var f := Step(e, head, isFloat);
    DeepDict(top, name, base, s.name);
    BodyRead(f, "    ", s.scalars, s.nests, isFloat);
    ReplaceDeep(top, name, base, s.name, Dict(BodyMap(s.scalars, s.nests)));
  }

  lemma SubHead(e: Loader, top: map<string, Value>, name: string, base: map<string, Value>, sub: string, isFloat: string -> bool)
    requires e.root == Dict(top[name := Dict(base)]) && e.section == Some(name) && e.current.Some?
    ensures Act(e, Head(2, sub), isFloat)
            == Loader(Dict(top[name := Dict(base[sub := Dict(map[])])]), Some(name), Some([name, sub]))
  {
    assert [name][1..] == [] && [name] + [sub] == [name, sub];
    assert IsDict(e.root, [name]);
    assert e.root.entries[name] == Dict(base);
    assert Put(e.root.entries[name], [name][1..], sub, Dict(map[])) == Dict(base[sub := Dict(map[])]);
    assert Put(e.root, [name], sub, Dict(map[])) == Dict(top[name := Dict(base)][name := Dict(base[sub := Dict(map[])])]);
    assert top[name := Dict(base)][name := Dict(base[sub := Dict(map[])])] == top[name := Dict(base[sub := Dict(map[])])];
  }

  /** Reading back a section's subsections. */
  lemma {:induction false} SubsRead(st: Loader, top: map<string, Value>, name: string, base: map<string, Value>,
                                    subs: seq<Sub>, isFloat: string -> bool)
    requires GoodSubs(subs, isFloat)
    requires st.root == Dict(top[name := Dict(base)]) && st.section == Some(name) && st.current.Some?
    ensures var e := Steps(st, ShowSubs(subs), isFloat);
            && e.root == Dict(top[name := Dict(SubMap(base, subs))])
            && e.section == Some(name) && e.current.Some?
    decreases |subs|
  {
    if subs != [] {
      var init, s := subs[..|subs| - 1], subs[|subs| - 1];
      assert s in subs;
      SubsRead(st, top, name, base, init, isFloat);
      StepsConcat(st, ShowSubs(init), ["  " + (s.name + ":\n")] + ShowBody("    ", s.scalars, s.nests), isFloat);
      SubRead(Steps(st, ShowSubs(init), isFloat), top, name, SubMap(base, init), s, isFloat);
    }
  }

  lemma DeepDict(top: map<string, Value>, name: string, base: map<string, Value>, sub: string)
    ensures var root := Dict(top[name := Dict(base[sub := Dict(map[])])]);
            At(root, [name, sub]) == Some(Dict(map[]))
  {
    var root := Dict(top[name := Dict(base[sub := Dict(map[])])]);
    assert [name, sub][1..] == [sub] && [sub][1..] == [];
    assert At(root.entries[name], [sub]) == Some(Dict(map[]));
  }

  lemma ReplaceDeep(top: map<string, Value>, name: string, base: map<string, Value>, sub: string, x: Value)
    ensures var root := Dict(top[name := Dict(base[sub := Dict(map[])])]);
            IsDict(root, [name, sub]) && Replace(root, [name, sub], x) == Dict(top[name := Dict(base[sub := x])])
  {
    DeepDict(top, name, base, sub);
    var root := Dict(top[name := Dict(base[sub := Dict(map[])])]);
    assert [name, sub][1..] == [sub] && [sub][1..] == [];
    assert Replace(root.entries[name], [sub], x) == Dict(base[sub := x]) by {
      assert base[sub := Dict(map[])][sub := x] == base[sub := x];
    }
    assert top[name := Dict(base[sub := Dict(map[])])][name := Dict(base[sub := x])] == top[name := Dict(base[sub := x])];
  }

  lemma SectionHead(st: Loader, name: string, isFloat: string -> bool)
    requires st.root.Dict?
    ensures var e := Act(st, Head(0, name), isFloat);
            && e == Loader(Dict(st.root.entries[name := Dict(map[])]), Some(name), Some([name]))
            && At(e.root, [name]) == Some(Dict(map[]))
  {
    assert [] + [name] == [name] && [name][1..] == [];
  }

  lemma ReplaceTop(top: map<string, Value>, name: string, x: Value)
    ensures var root := Dict(top[name := Dict(map[])]);
            IsDict(root, [name]) && Replace(root, [name], x) == Dict(top[name := x])
  {
    assert [name][1..] == [];
    assert top[name := Dict(map[])][name := x] == top[name := x];
  }

  lemma SectionRead(st: Loader, s: Section, isFloat: string -> bool)
    requires st.root.Dict? && GoodKey(s.name) && GoodScalars(s.scalars, isFloat)
    requires GoodNests(s.nests, isFloat) && GoodSubs(s.subs, isFloat)
    ensures Steps(st, ShowSection(s), isFloat).root == Dict(st.root.entries[s.name := SectionDict(s)])
  {
    var head, body, subs := "" + (s.name + ":\n"), ShowBody("  ", s.scalars, s.nests), ShowSubs(s.subs);
    var top := st.root.entries;
    HeaderLine("", s.name);
    SectionHead(st, s.name, isFloat);
    var e := Step(st, head, isFloat);
    assert ([head] + (body + subs))[1..] == body + subs;
    StepsConcat(e, body, subs, isFloat);
    BodyRead(e, "  ", s.scalars, s.nests, isFloat);
    ReplaceTop(top, s.name, Dict(BodyMap(s.scalars, s.nests)));
    SubsRead(Steps(e, body, isFloat), top, s.name, BodyMap(s.scalars, s.nests), s.subs, isFloat);
  }

  lemma {:induction false} ConfigRead(c: Config, isFloat: string -> bool)
    requires GoodConfig(c, isFloat)
    ensures Load(ShowConfig(c), isFloat) == Dict(Meaning(c))
  {
    if c != [] {
      var init, last := c[..|c| - 1], c[|c| - 1];
      assert last in c;
      ConfigRead(init, isFloat);
      StepsConcat(START, ShowConfig(init), ShowSection(last), isFloat);
      SectionRead(Steps(START, ShowConfig(init), isFloat), last, isFloat);
    }
  }

  // ---- From text to text ---------------------------------------------------

  /** A printed line is one line of the file. */
  lemma PrintedLine(m: string, body: string)
    requires Margin(m) && Unbroken(body)
    ensures WholeLine(m + (body + "\n"))
  {
    var line := m + (body + "\n");
    assert line[..|line| - 1] == m + body;
  }

  lemma {:induction false} ScalarLines(m: string, ss: Scalars, isFloat: string -> bool)
    requires Margin(m) && GoodScalars(ss, isFloat)
    ensures WholeLines(ShowScalars(m, ss))
  {
    if ss != [] {
      var (key, v) := ss[|ss| - 1];
      assert ss[|ss| - 1] in ss;
      ScalarLines(m, ss[..|ss| - 1], isFloat);
      ClassifyShown(v, isFloat);
      PrintedLine(m, key + (": " + Show(v)));
      assert key + (": " + (Show(v) + "\n")) == (key + (": " + Show(v))) + "\n";
    }
  }

  lemma HeadLine(m: string, key: string)
    requires Margin(m) && GoodKey(key)
    ensures WholeLine(m + (key + ":\n"))
  {
    PrintedLine(m, key + ":");
    assert key + ":\n" == (key + ":") + "\n";
  }

  lemma {:induction false} NestLines(nests: seq<Nest>, isFloat: string -> bool)
    requires GoodNests(nests, isFloat)
    ensures WholeLines(ShowNests(nests))
  {
    if nests != [] {
      assert nests[0] in nests;
      HeadLine(nests[0].margin, nests[0].key);
      ScalarLines(nests[0].inner, nests[0].scalars, isFloat);
      NestLines(nests[1..], isFloat);
    }
  }

  lemma {:induction false} SubLines(subs: seq<Sub>, isFloat: string -> bool)
    requires GoodSubs(subs, isFloat)
    ensures WholeLines(ShowSubs(subs))
  {
    if subs != [] {
      assert subs[|subs| - 1] in subs;
      SubLines(subs[..|subs| - 1], isFloat);
      HeadLine("  ", subs[|subs| - 1].name);
      ScalarLines("    ", subs[|subs| - 1].scalars, isFloat);
      NestLines(subs[|subs| - 1].nests, isFloat);
    }
  }

  lemma {:induction false} ConfigLines(c: Config, isFloat: string -> bool)
    requires GoodConfig(c, isFloat)
    ensures WholeLines(ShowConfig(c))
  {
    if c != [] {
      var s := c[|c| - 1];
      assert s in c;
      ConfigLines(c[..|c| - 1], isFloat);
      HeadLine("", s.name);
      ScalarLines("  ", s.scalars, isFloat);
      NestLines(s.nests, isFloat);
      SubLines(s.subs, isFloat);
    }
  }

  /** The shape of ci/config.yaml: the loader puts a scalar into the dictionary a
      key without a value has opened, although its indent is that of the key, as in
      desktop, prepare, qemu_binaries and check_env_file there. */
  lemma DedentIgnored(name: string, sub: string, key: string, k: string, v: Value, isFloat: string -> bool)
    requires GoodKey(name) && GoodKey(sub) && GoodKey(key) && GoodKey(k) && GoodScalar(v, isFloat)
    ensures var lines := [name + ":\n", "  " + (sub + ":\n"), "    " + (key + ":\n"), "    " + (k + (": " + (Show(v) + "\n")))];
            LoadFile(Join(lines), isFloat) == Dict(map[name := Dict(map[sub := Dict(map[key := Dict(map[k := v])])])])
  {
    var nest := Nest("    ", key, "    ", [(k, v)]);
    var prepare := Sub(sub, [], [nest]);
    var section := Section(name, [], [], [prepare]);
    OneOfEach(section, prepare, nest, (k, v));
    OneNest(nest, k, v, isFloat);
    OneSection(section, prepare, isFloat);
    PrintThenLoad([section], isFloat);
  }

  lemma OneNest(nest: Nest, k: string, v: Value, isFloat: string -> bool)
    requires GoodKey(nest.key) && GoodKey(k) && GoodScalar(v, isFloat)
    requires nest.margin == "    " && nest.inner == "    " && nest.scalars == [(k, v)]
    ensures GoodNests([nest], isFloat) && BodyMap([], [nest]) == map[nest.key := Dict(map[k := v])]
  {
    assert [(k, v)][..0] == [] && [nest][1..] == [];
    assert ScalarMap([]) == map[] && ScalarMap([(k, v)]) == map[][k := v] == map[k := v];
    assert NestMap([]) == map[] && BodyMap([(k, v)], []) == map[k := v] + map[] == map[k := v];
    assert BodyMap([], [nest]) == map[] + NestMap([nest]) == NestMap([nest]);
  }

  lemma OneSub(prepare: Sub)
    ensures SubMap(BodyMap([], []), [prepare]) == map[prepare.name := Dict(BodyMap(prepare.scalars, prepare.nests))]
  {
    assert [prepare][..0] == [];
    assert BodyMap([], []) == map[] + map[] == map[];
    assert SubMap(map[], []) == map[];
  }

  lemma OneSection(section: Section, prepare: Sub, isFloat: string -> bool)
    requires section.scalars == [] && section.nests == [] && section.subs == [prepare] && prepare.scalars == []
    requires GoodKey(section.name) && GoodKey(prepare.name) && GoodNests(prepare.nests, isFloat)
    ensures GoodConfig([section], isFloat) && ShowConfig([section]) == ShowSection(section)
    ensures Meaning([section]) == map[section.name := Dict(map[prepare.name := Dict(BodyMap([], prepare.nests))])]
  {
    assert [section][..0] == [];
    assert [] + ShowSection(section) == ShowSection(section);
    OneSub(prepare);
  }

  lemma OneOfEach(section: Section, prepare: Sub, nest: Nest, scalar: (string, Value))
    requires section.scalars == [] && section.nests == [] && section.subs == [prepare]
    requires prepare.scalars == [] && prepare.nests == [nest] && nest.scalars == [scalar]
    ensures ShowSection(section) == [section.name + ":\n", "  " + (prepare.name + ":\n"), NestHead(nest),
                                     nest.inner + (scalar.0 + (": " + (Show(scalar.1) + "\n")))]
    ensures ScalarMap([scalar]) == map[scalar.0 := scalar.1]
    ensures SubMap(map[], [prepare]) == map[prepare.name := Dict(BodyMap([], [nest]))]
  {
    assert [prepare][..0] == [] && [scalar][..0] == [] && [nest][1..] == [];
    assert ShowScalars(nest.inner, [scalar]) == [nest.inner + (scalar.0 + (": " + (Show(scalar.1) + "\n")))];
    assert ShowNests([nest]) == [NestHead(nest)] + ShowScalars(nest.inner, [scalar]);
    assert ShowSubs([prepare]) == ["  " + (prepare.name + ":\n")] + ShowNests([nest]);
    assert "" + (section.name + ":\n") == section.name + ":\n";
  }

  /** For any file whose lines, blank and comment lines aside, are those of the
      printed config, the loader gives what the config means. */
  lemma ParserInvertsPrinter(c: Config, text: string, isFloat: string -> bool)
    requires GoodConfig(c, isFloat) && Filter(ReadLines(text), KEPT) == ShowConfig(c)
    ensures LoadFile(text, isFloat) == Dict(Meaning(c))
  {
    CommentsIgnored(START, ReadLines(text), isFloat);
    ConfigRead(c, isFloat);
  }

  /** Such files: the printed config with whole blank and comment lines put in
      anywhere, and with Unix or Windows line ends. */
  lemma FileRoundTrip(c: Config, lines: seq<string>, isFloat: string -> bool)
    requires GoodConfig(c, isFloat) && WholeLines(lines) && Filter(lines, KEPT) == ShowConfig(c)
    ensures LoadFile(Join(lines), isFloat) == Dict(Meaning(c))
    ensures LoadFile(Windows(Join(lines)), isFloat) == Dict(Meaning(c))
  {
    SplitJoin(lines);
    LinesRoundTrip(lines);
    UniversalWindows(Join(lines));
    ParserInvertsPrinter(c, Join(lines), isFloat);
    ParserInvertsPrinter(c, Windows(Join(lines)), isFloat);
  }

  /** Printing a config to a file and loading the file. */
  lemma PrintThenLoad(c: Config, isFloat: string -> bool)
    requires GoodConfig(c, isFloat)
    ensures LoadFile(Join(ShowConfig(c)), isFloat) == Dict(Meaning(c))
  {
    ConfigLines(c, isFloat);
    LinesRoundTrip(ShowConfig(c));
    ConfigRead(c, isFloat);
  }

  // ---- Exactly which scalars survive ---------------------------------------

  /** What the file iterator can give: a newline at most at the end. */
  predicate FileLine(line: string) {
    line == "" || ('\r' !in line && '\n' !in line[..|line| - 1])
  }

  lemma {:induction false} UniversalPlain(text: string)
    ensures '\r' !in Universal(text)
    decreases |text|
  {
    if text != "" {
      if text[0] != '\r' {
        UniversalPlain(text[1..]);
      } else {
        UniversalPlain(if |text| > 1 && text[1] == '\n' then text[2..] else text[1..]);
      }
    }
  }

  lemma {:induction false} OneEnd(text: string)
    requires text != ""
    ensures '\n' !in text[..LineEnd(text) - 1]
  {
    if text[0] != '\n' && text[1..] != "" {
      OneEnd(text[1..]);
      assert text[..LineEnd(text) - 1] == [text[0]] + text[1..][..LineEnd(text[1..]) - 1];
    }
  }

  lemma {:induction false} FileLines(text: string)
    requires '\r' !in text
    ensures forall l :: l in SplitLines(text) ==> FileLine(l)
    decreases |text|
  {
    if text != "" {
      var i := LineEnd(text);
      OneEnd(text);
      assert text[..i][..i - 1] == text[..i - 1];
      FileLines(text[i..]);
    }
  }

  lemma {:induction false} LStripChars(s: string)
    ensures forall c :: c in LStrip(s) ==> c in s
  {
    if s != "" && IsSpace(s[0]) {
      LStripChars(s[1..]);
    }
  }

  lemma {:induction false} RStripChars(s: string)
    ensures forall c :: c in RStrip(s) ==> c in s
  {
    if s != "" && IsSpace(s[|s| - 1]) {
      RStripChars(s[..|s| - 1]);
    }
  }

  lemma {:induction false} RStripEnd(s: string)
    ensures RStrip(s) != "" ==> !IsSpace(RStrip(s)[|RStrip(s)| - 1]) && s != "" && RStrip(s)[0] == s[0]
  {
    if s != "" && IsSpace(s[|s| - 1]) {
      RStripEnd(s[..|s| - 1]);
    }
  }

  lemma {:induction false} LStripStart(s: string)
    ensures LStrip(s) != "" ==> !IsSpace(LStrip(s)[0])
  {
    if s != "" && IsSpace(s[0]) {
      LStripStart(s[1..]);
    }
  }

  lemma StripTrims(s: string)
    ensures Trimmed(Strip(s)) && forall c :: c in Strip(s) ==> c in s
  {
    LStripStart(s);
    RStripEnd(LStrip(s));
    LStripChars(s);
    RStripChars(LStrip(s));
  }

  lemma StrippedUnbroken(line: string)
    requires FileLine(line)
    ensures Unbroken(RStrip(line))
  {
    RStripChars(line);
    if line != "" && line[|line| - 1] == '\n' {
      RStripChars(line[..|line| - 1]);
    }
  }

  /** A text that a line of a file yields is trimmed and has no line break. */
  lemma TextOfLine(line: string)
    requires Scan(line).Pair?
    ensures Trimmed(Scan(line).text) && (FileLine(line) ==> Unbroken(Scan(line).text))
  {
    var s := RStrip(line);
    StripTrims(s[Colon(s) + 1..]);
    if FileLine(line) {
      StrippedUnbroken(line);
    }
  }

  /** No text anywhere in the value has a line break. */
  predicate OneLine(v: Value) {
    match v
    case Dict(m) => forall k :: k in m ==> OneLine(m[k])
    case Float(t) => Unbroken(t)
    case Str(t) => Unbroken(t)
    case _ => true
  }

  lemma {:induction false} PutOneLine(v: Value, path: Path, key: string, x: Value)
    requires OneLine(v) && OneLine(x)
    ensures OneLine(Put(v, path, key, x))
    decreases |path|
  {
    if v.Dict? && path != [] && path[0] in v.entries {
      PutOneLine(v.entries[path[0]], path[1..], key, x);
    }
  }

  lemma ClassifyOneLine(text: string, isFloat: string -> bool)
    requires Unbroken(text)
    ensures OneLine(Classify(text, isFloat))
  {
  }

  lemma StepOneLine(st: Loader, line: string, isFloat: string -> bool)
    requires OneLine(st.root) && FileLine(line)
    ensures OneLine(Step(st, line, isFloat).root)
  {
    var tok := Scan(line);
    if tok.Pair? && tok.text != "" {
      TextOfLine(line);
      ClassifyOneLine(tok.text, isFloat);
      if st.section.Some? && st.current.Some? {
        PutOneLine(st.root, st.current.value, tok.key, Classify(tok.text, isFloat));
      }
    } else {
      forall path: Path, key: string ensures OneLine(Put(st.root, path, key, Dict(map[]))) {
        PutOneLine(st.root, path, key, Dict(map[]));
      }
    }
  }

  lemma {:induction false} StepsOneLine(st: Loader, lines: seq<string>, isFloat: string -> bool)
    requires OneLine(st.root) && forall l :: l in lines ==> FileLine(l)
    ensures OneLine(Steps(st, lines, isFloat).root)
    decreases |lines|
  {
    if lines != [] {
      StepOneLine(st, lines[0], isFloat);
      StepsOneLine(Step(st, lines[0], isFloat), lines[1..], isFloat);
    }
  }

  /** Whatever the file says, no loaded text has a line break. */
  lemma LoadedOneLine(text: string, isFloat: string -> bool)
    ensures OneLine(LoadFile(text, isFloat))
  {
    UniversalPlain(text);
    FileLines(Universal(text));
    StepsOneLine(START, ReadLines(text), isFloat);
  }

  /** In a section that is still empty only a pair can set a scalar. */
  lemma OnlyPair(name: string, key: string, v: Value, tok: Token, isFloat: string -> bool)
    requires !v.Dict?
    requires Act(Loader(Dict(map[name := Dict(map[])]), Some(name), Some([name])), tok, isFloat).root
             == Dict(map[name := Dict(map[key := v])])
    ensures tok.Pair? && tok.key == key && tok.text != "" && Classify(tok.text, isFloat) == v
  {
    var root := Dict(map[name := Dict(map[])]);
    assert [name][1..] == [];
    forall k: string, x: Value ensures Put(root, [name], k, x) == Dict(map[name := Dict(map[k := x])]) {
      assert Put(root.entries[name], [], k, x) == Dict(map[][k := x]);
      assert root.entries[name := Dict(map[k := x])] == map[name := Dict(map[k := x])];
    }
    var one := map[key := v];
    assert key in one && one[key] == v && root.entries[name] == Dict(map[]);
    if tok.Pair? {
      var x := if tok.text == "" then Dict(map[]) else Classify(tok.text, isFloat);
      assert Put(root, [name], tok.key, x).entries[name] == Dict(map[tok.key := x]) == Dict(one);
      assert tok.key in one;
    }
  }

  lemma PairNotHead(s: string, indent: nat)
    requires Tokenise(s, indent).Pair? && (indent == 0 || indent == 2 || indent == 4)
    ensures !EndsWithColon(s)
  {
  }

  /** A printed line that reads as a pair with the text printed shows a good text. */
  lemma GoodFromLine(key: string, t: string)
    requires GoodKey(key) && Unbroken(t) && t != "" && Trimmed(t)
    requires Scan(ScalarText(key, t)).Pair?
    ensures GoodText(t)
  {
    var body := key + (": " + t);
    assert ScalarText(key, t) == "  " + (body + "\n");
    assert key != "" ==> body[0] == key[0];
    assert (key + ": ") + t == body;
    SameEnd(key + ": ", t, body);
    ScanLine("  ", body);
    PairNotHead("  " + body, 2);
    SameEnd("  ", body, "  " + body);
  }

  lemma SameEnd(a: string, b: string, c: string)
    requires b != "" && a + b == c
    ensures c[|c| - 1] == b[|b| - 1]
  {
  }

  lemma TwoLines(name: string, key: string, v: Value, isFloat: string -> bool)
    requires GoodKey(name) && GoodKey(key) && Unbroken(Show(v))
    ensures LoadFile(Join(ShowConfig([Section(name, [(key, v)], [], [])])), isFloat)
            == Act(Loader(Dict(map[name := Dict(map[])]), Some(name), Some([name])),
                   Scan("  " + (key + (": " + (Show(v) + "\n")))), isFloat).root
  {
    var head, line := "" + (name + ":\n"), "  " + (key + (": " + (Show(v) + "\n")));
    var section := Section(name, [(key, v)], [], []);
    assert [section][..0] == [] && [(key, v)][..0] == [];
    assert ShowScalars("  ", [(key, v)]) == [line];
    assert ShowConfig([section]) == [head, line];
    HeadLine("", name);
    PrintedLine("  ", key + (": " + Show(v)));
    assert (key + (": " + Show(v))) + "\n" == key + (": " + (Show(v) + "\n"));
    LinesRoundTrip([head, line]);
    HeaderLine("", name);
    SectionHead(START, name, isFloat);
    var st := Step(START, head, isFloat);
    assert [head, line][1..] == [line] && [line][1..] == [];
    assert Steps(st, [line], isFloat) == Step(st, line, isFloat);
  }

  predicate Survives(name: string, key: string, v: Value, isFloat: string -> bool) {
    LoadFile(Join(ShowConfig([Section(name, [(key, v)], [], [])])), isFloat) == Dict(map[name := Dict(map[key := v])])
  }

  lemma SurvivorOneLine(name: string, key: string, v: Value, isFloat: string -> bool)
    requires Survives(name, key, v, isFloat)
    ensures OneLine(v)
  {
    LoadedOneLine(Join(ShowConfig([Section(name, [(key, v)], [], [])])), isFloat);
    var top, one := map[name := Dict(map[key := v])], map[key := v];
    assert name in top && key in one && OneLine(top[name]) && OneLine(one[key]);
  }

  function ScalarText(key: string, t: string): string {
    "  " + (key + (": " + (t + "\n")))
  }

  lemma SurvivorToken(name: string, key: string, v: Value, isFloat: string -> bool)
    requires GoodKey(name) && GoodKey(key) && Survives(name, key, v, isFloat) && !v.Dict? && Unbroken(Show(v))
    ensures var tok := Scan(ScalarText(key, Show(v)));
            tok.Pair? && tok.text != "" && Classify(tok.text, isFloat) == v && Trimmed(tok.text)
  {
    TwoLines(name, key, v, isFloat);
    OnlyPair(name, key, v, Scan(ScalarText(key, Show(v))), isFloat);
    TextOfLine(ScalarText(key, Show(v)));
  }

  lemma ClassifiedAs(text: string, v: Value, isFloat: string -> bool)
    requires Classify(text, isFloat) == v && (v.Str? || v.Float?)
    ensures text == Show(v) && (GoodText(text) ==> GoodScalar(v, isFloat))
  {
  }

  lemma SurvivorIsGood(name: string, key: string, v: Value, isFloat: string -> bool)
    requires GoodKey(name) && GoodKey(key) && Survives(name, key, v, isFloat) && (v.Str? || v.Float?)
    ensures GoodScalar(v, isFloat)
  {
    SurvivorOneLine(name, key, v, isFloat);
    SurvivorToken(name, key, v, isFloat);
    ClassifiedAs(Scan(ScalarText(key, Show(v))).text, v, isFloat);
    GoodFromLine(key, Show(v));
  }

  /** A scalar printed into a file is loaded back as itself exactly when it is good. */
  lemma ScalarSurvivesIff(name: string, key: string, v: Value, isFloat: string -> bool)
    requires GoodKey(name) && GoodKey(key) && !v.Dict?
    ensures Survives(name, key, v, isFloat) <==> GoodScalar(v, isFloat)
  {
    if GoodScalar(v, isFloat) {
      OneScalar(name, key, v);
      PrintThenLoad([Section(name, [(key, v)], [], [])], isFloat);
    } else if Survives(name, key, v, isFloat) {
      SurvivorIsGood(name, key, v, isFloat);
    }
  }

  lemma OneScalar(name: string, key: string, v: Value)
    ensures Meaning([Section(name, [(key, v)], [], [])]) == map[name := Dict(map[key := v])]
  {
    var section := Section(name, [(key, v)], [], []);
    assert [section][..0] == [] && [(key, v)][..0] == [];
    assert ScalarMap([(key, v)]) == map[key := v] && BodyMap([(key, v)], []) == map[key := v];
    assert SectionDict(section) == Dict(map[key := v]);
  }

  // ---- The loader itself ---------------------------------------------------

  /** The loop body: one line into result, section and current dictionary. */
  method LoadLine(root: Value, oldSection: Option<string>, oldCurrent: Option<Path>, line: string, isFloat: string -> bool)
    returns (result: Value, section: Option<string>, current: Option<Path>)
    requires Anchored(Loader(root, oldSection, oldCurrent))
    ensures Loader(result, section, current) == Step(Loader(root, oldSection, oldCurrent), line, isFloat)
  {
    result, section, current := root, oldSection, oldCurrent;
    var stripped := RStrip(line);
    var body := LStrip(stripped);
    if body == "" || body[0] == '#' {
      return;
    }
    var indent := |line| - |LStrip(line)|;
    if indent == 0 && EndsWithColon(stripped) {
      var key := Header(stripped);
      result := Dict(root.entries[key := Dict(map[])]);
      section, current := Some(key), Some([] + [key]);
      return;
    }
    if section.None? {
      return;
    }
    if indent == 2 && EndsWithColon(stripped) {
      var key := Header(stripped);
      if IsDict(root, [section.value]) {
        result := Put(root, [section.value], key, Dict(map[]));
        current := Some([section.value] + [key]);
      }
      return;
    }
    if indent == 4 && EndsWithColon(stripped) {
      var key := Header(stripped);
      result := Put(root, current.value, key, Dict(map[]));
      current := Some(current.value + [key]);
      return;
    }
    var colon := Colon(stripped);
    if colon < |stripped| {
      var key, text := Strip(stripped[..colon]), Strip(stripped[colon + 1..]);
      if text == "" {
        result := Put(root, current.value, key, Dict(map[]));
        current := Some(current.value + [key]);
      } else {
        result := Put(root, current.value, key, Classify(text, isFloat));
      }
    }
  }

  /** The loop over the lines of a file with this text. */
  method MinimalYamlLoad(text: string, isFloat: string -> bool) returns (result: Value)
    ensures result == LoadFile(text, isFloat)
  {
    var lines := ReadLines(text);
    result := Dict(map[]);
    var section: Option<string> := None;
    var current: Option<Path> := None;
    for i := 0 to |lines|
      invariant Load(lines, isFloat) == Steps(Loader(result, section, current), lines[i..], isFloat).root
      invariant Anchored(Loader(result, section, current))
    {
      ActAnchored(Loader(result, section, current), Scan(lines[i]), isFloat);
      assert lines[i..][1..] == lines[i + 1..];
      result, section, current := LoadLine(result, section, current, lines[i], isFloat);
    }
  }
}
