/** The Vouch pubkeys file: one lower-case key per line, sorted and without duplicates on write; blank and
    comment lines skipped on read. Case mapping is ASCII, white space is Latin-1.
 */
module PubkeysFile {
  import opened Common
  import opened Strings
  import Registry
  import RegistryPool

  predicate IsSpace(c: char) {
    9 <= c as int <= 13 || c as int in {32, 0x85, 0xA0}
  }

  function TrimLeft(s: string): string {
    if s != "" && IsSpace(s[0]) then TrimLeft(s[1..]) else s
  }

  function TrimRight(s: string): string {
    if s != "" && IsSpace(s[|s| - 1]) then TrimRight(s[..|s| - 1]) else s
  }

  /** strings.TrimSpace. */
  function Trim(s: string): string {
    TrimRight(TrimLeft(s))
  }

  /** strings.Split on newlines: a text without one is a single line. */
  function Split(s: string): (lines: seq<string>)
    ensures |lines| > 0
  {
    if s == "" then [""]
    else
      var rest := Split(s[1..]);
      if s[0] == '\n' then [""] + rest else [[s[0]] + rest[0]] + rest[1..]
  }

  predicate Skipped(line: string) {
    line == "" || line[0] == '#'
  }

  function LoadLines(lines: seq<string>): seq<string> {
    if lines == [] then []
    else (if Skipped(Trim(lines[0])) then [] else [Trim(lines[0])]) + LoadLines(lines[1..])
  }

  function Load(text: string): seq<string> {
    LoadLines(Split(text))
  }

  function Text(keys: seq<string>): string {
    if keys == [] then "" else keys[0] + "\n" + Text(keys[1..])
  }

  // ---------------------------------------------------------------- the code

  lemma LoadLine(pubkeys: seq<string>, lines: seq<string>, i: nat)
    requires i < |lines|
    ensures pubkeys + LoadLines(lines[i..]) ==
            (if Skipped(Trim(lines[i])) then pubkeys else pubkeys + [Trim(lines[i])]) + LoadLines(lines[i + 1..])
  {
  }

  /** loadPubkeysFile; `data` is None when the file cannot be read. */
  method LoadPubkeysFile(data: Option<string>) returns (r: Result<seq<string>, string>)
    ensures r.Err? <==> data.None?
    ensures data.Some? ==> r == Ok(Load(data.value))
  {
    if data.None? {
      return Err("could not read vouch pubkeys file");
    }
    var lines := Split(data.value);
    var pubkeys: seq<string> := [];
    var i := 0;
    assert lines[0..] == lines;
    assert LoadLines([]) == [];
    hide LoadLines, Trim, Skipped, Split;
    while i < |lines|
      invariant 0 <= i <= |lines|
      invariant LoadLines(lines) == pubkeys + LoadLines(lines[i..])
    {
      LoadLine(pubkeys, lines, i);
      var line := Trim(lines[i]);
      if !Skipped(line) {
        pubkeys := pubkeys + [line];
      }
      i := i + 1;
    }
    assert pubkeys + [] == pubkeys;
    return Ok(pubkeys);
  }

  lemma AppendLine(text: string, keys: seq<string>, j: nat)
    requires j < |keys|
    ensures text + Text(keys[j..]) == text + keys[j] + "\n" + Text(keys[j + 1..])
  {
  }

  /** WritePubkeysFile: the text written, and the list it spells out. */
  method WritePubkeysFile(pubkeys: seq<string>) returns (text: string, ghost keys: seq<string>)
    ensures Sorted(keys) && Distinct(keys) && Elements(keys) == Lowered(pubkeys)
    ensures text == Text(keys)
  {
    var all: set<string> := {};
    var i := 0;
    while i < |pubkeys|
      invariant 0 <= i <= |pubkeys|
      invariant all == Lowered(pubkeys[..i])
    {
      assert pubkeys[..i + 1] == pubkeys[..i] + [pubkeys[i]];
      all := all + {ToLower(pubkeys[i])};
      i := i + 1;
    }
    assert pubkeys[..|pubkeys|] == pubkeys;
    var unique := SortedKeys(all);
    keys := unique;
    hide Sorted, Distinct, Elements, Lowered, ToLower;
    text := "";
    var j := 0;
    assert unique[0..] == unique;
    while j < |unique|
      invariant 0 <= j <= |unique|
      invariant Text(unique) == text + Text(unique[j..])
    {
      AppendLine(text, unique, j);
      text := text + unique[j] + "\n";
      j := j + 1;
    }
    assert text + "" == text;
  }

  // ---------------------------------------------------------------- which keys survive the file

  ghost predicate Trimmed(s: string) {
    s != "" ==> !IsSpace(s[0]) && !IsSpace(s[|s| - 1])
  }

  /** A line that reading gives back as it is. */
  ghost predicate Loadable(s: string) {
    !Skipped(s) && '\n' !in s && Trimmed(s)
  }

  lemma {:induction false} TrimLeftFacts(s: string)
    ensures TrimLeft(s) != "" ==> !IsSpace(TrimLeft(s)[0]) && TrimLeft(s)[|TrimLeft(s)| - 1] == s[|s| - 1]
    ensures forall c | c in TrimLeft(s) :: c in s
  {
    if s != "" && IsSpace(s[0]) {
      TrimLeftFacts(s[1..]);
    }
  }

  lemma {:induction false} TrimRightFacts(s: string)
    ensures TrimRight(s) != "" ==> !IsSpace(TrimRight(s)[|TrimRight(s)| - 1]) && TrimRight(s)[0] == s[0]
    ensures forall c | c in TrimRight(s) :: c in s
  {
    if s != "" && IsSpace(s[|s| - 1]) {
      TrimRightFacts(s[..|s| - 1]);
    }
  }

  lemma TrimFacts(s: string)
    ensures Trimmed(Trim(s)) && (forall c | c in Trim(s) :: c in s)
    ensures Trimmed(s) ==> Trim(s) == s
  {
    TrimLeftFacts(s);
    TrimRightFacts(TrimLeft(s));
  }

  lemma {:induction false} SplitHasNoNewlines(s: string)
    ensures forall k | 0 <= k < |Split(s)| :: '\n' !in Split(s)[k]
  {
    if s != "" {
      SplitHasNoNewlines(s[1..]);
    }
  }

  /** Whatever the file holds, what is read from it can be written and read back. */
  lemma {:induction false} LoadedLinesAreLoadable(lines: seq<string>)
    requires forall k | 0 <= k < |lines| :: '\n' !in lines[k]
    ensures forall k | 0 <= k < |LoadLines(lines)| :: Loadable(LoadLines(lines)[k])
  {
    if lines != [] {
      TrimFacts(lines[0]);
      LoadedLinesAreLoadable(lines[1..]);
    }
  }

  lemma {:induction false} SplitLine(line: string, rest: string)
    requires '\n' !in line
    ensures Split(line + "\n" + rest) == [line] + Split(rest)
  {
    var s := line + "\n" + rest;
    if line == "" {
      assert s[1..] == rest;
    } else {
      assert line[0] in line && s[0] == line[0] && s[1..] == line[1..] + "\n" + rest;
      SplitLine(line[1..], rest);
      assert [line[0]] + line[1..] == line;
      assert ([line[1..]] + Split(rest))[1..] == Split(rest);
    }
  }

  lemma {:induction false} LoadableKeysRoundTrip(keys: seq<string>)
    requires forall k | 0 <= k < |keys| :: Loadable(keys[k])
    ensures Load(Text(keys)) == keys
  {
    if keys == [] {
      assert Split("") == [""] && [""][1..] == [];
    } else {
      SplitLine(keys[0], Text(keys[1..]));
      var lines := Split(Text(keys));
      assert lines[0] == keys[0] && lines[1..] == Split(Text(keys[1..]));
      TrimFacts(keys[0]);
      LoadableKeysRoundTrip(keys[1..]);
      assert keys == [keys[0]] + keys[1..];
    }
  }

  /** Reading back gives the written list exactly when every key is non-empty, holds no newline, neither
      begins nor ends with white space, and does not begin with '#'. */
  lemma RoundTripIff(keys: seq<string>)
    ensures Load(Text(keys)) == keys <==> forall k | 0 <= k < |keys| :: Loadable(keys[k])
  {
    SplitHasNoNewlines(Text(keys));
    LoadedLinesAreLoadable(Split(Text(keys)));
    if forall k | 0 <= k < |keys| :: Loadable(keys[k]) {
      LoadableKeysRoundTrip(keys);
    }
  }

  lemma LowerKeepsLoadable(s: string)
    requires Loadable(s)
    ensures Loadable(ToLower(s))
  {
    var t := ToLower(s);
    forall i | 0 <= i < |t|
      ensures IsSpace(t[i]) == IsSpace(s[i]) && (t[i] == '#' <==> s[i] == '#') && t[i] != '\n'
    {
      LowerCharFacts(s[i]);
      assert s[i] in s;
    }
    hide ToLower, IsSpace, LowerChar;
  }

  lemma LowerCharFacts(c: char)
    ensures IsSpace(LowerChar(c)) == IsSpace(c)
    ensures (LowerChar(c) == '#' <==> c == '#') && (LowerChar(c) == '\n' <==> c == '\n')
  {
  }

  /** `keys` is the list that WritePubkeysFile spells out for `pubkeys`. */
  ghost predicate Canonical(pubkeys: seq<string>, keys: seq<string>) {
    Sorted(keys) && Distinct(keys) && Elements(keys) == Lowered(pubkeys)
  }

  lemma CanonicalIsLoadable(pubkeys: seq<string>, keys: seq<string>, k: nat)
    requires Canonical(pubkeys, keys) && k < |keys|
    requires forall i | 0 <= i < |pubkeys| :: Loadable(pubkeys[i])
    ensures Loadable(keys[k]) && ToLower(keys[k]) == keys[k]
  {
    assert keys[k] in Elements(keys);
    var x :| x in pubkeys && ToLower(x) == keys[k];
    LowerKeepsLoadable(x);
    ToLowerIdempotent(x);
  }

  lemma CanonicalIsFixed(keys: seq<string>, again: seq<string>)
    requires Sorted(keys) && Distinct(keys) && Canonical(keys, again)
    requires forall k | 0 <= k < |keys| :: ToLower(keys[k]) == keys[k]
    ensures again == keys
  {
    forall x
      ensures x in Lowered(keys) <==> x in Elements(keys)
    {
      if x in Lowered(keys) {
        var y :| y in keys && ToLower(y) == x;
      }
      if x in Elements(keys) {
        assert x in keys && ToLower(x) == x;
      }
    }
    SortedListUnique(again, keys);
  }

  /** Write then read gives the sorted lower-case list, and writing that again gives the same file. */
  lemma WriteReadWrite(pubkeys: seq<string>, keys: seq<string>, again: seq<string>)
    requires forall i | 0 <= i < |pubkeys| :: Loadable(pubkeys[i])
    requires Canonical(pubkeys, keys) && Canonical(Load(Text(keys)), again)
    ensures Load(Text(keys)) == keys && Text(again) == Text(keys)
  {
    forall k | 0 <= k < |keys|
      ensures Loadable(keys[k]) && ToLower(keys[k]) == keys[k]
    {
      CanonicalIsLoadable(pubkeys, keys, k);
    }
    RoundTripIff(keys);
    CanonicalIsFixed(keys, again);
  }

  /** Any file at all, hand-edited ones included, survives being loaded, rewritten and loaded again. */
  lemma RewrittenFileLoadsTheSame(text: string, keys: seq<string>)
    requires Canonical(Load(text), keys)
    ensures Load(Text(keys)) == keys
  {
    SplitHasNoNewlines(text);
    LoadedLinesAreLoadable(Split(text));
    forall k | 0 <= k < |keys|
      ensures Loadable(keys[k])
    {
      CanonicalIsLoadable(Load(text), keys, k);
    }
    RoundTripIff(keys);
  }

  // ---------------------------------------------------------------- what a file means

  /** A line of the file: a key between white space, white space only, or a comment. */
  datatype Line = KeyLine(before: string, key: string, after: string) | Blank(spaces: string)
                | Comment(before: string, text: string)

  /** The white space that can occur within a line. */
  predicate Spaces(s: string) {
    forall i | 0 <= i < |s| :: s[i] as int in {9, 11, 12, 13, 32, 133, 160}
  }

  ghost predicate IsLine(l: Line) {
    match l
    case KeyLine(before, key, after) =>
      && Spaces(before) && Spaces(after) && key != "" && key[0] != '#' && '\n' !in key
      && !Spaces([key[0]]) && !Spaces([key[|key| - 1]])
    case Blank(spaces) => Spaces(spaces)
    case Comment(before, text) => Spaces(before) && '\n' !in text
  }

  function Spelled(l: Line): string {
    match l
    case KeyLine(before, key, after) => before + (key + after)
    case Blank(spaces) => spaces
    case Comment(before, text) => before + ("#" + text)
  }

  /** The lines with newlines between them; a final newline is a final blank line. */
  function FileText(ls: seq<Line>): string
    requires ls != []
  {
    if |ls| == 1 then Spelled(ls[0]) else Spelled(ls[0]) + "\n" + FileText(ls[1..])
  }

  function Keys(ls: seq<Line>): seq<string> {
    if ls == [] then [] else (if ls[0].KeyLine? then [ls[0].key] else []) + Keys(ls[1..])
  }

  lemma SpaceWithinLine(c: char)
    requires c != '\n'
    ensures IsSpace(c) <==> Spaces([c])
  {
    assert Spaces([c]) <==> [c][0] as int in {9, 11, 12, 13, 32, 133, 160};
  }

  lemma {:induction false} TrimsLeft(spaces: string, s: string)
    requires Spaces(spaces) && (s == "" || !IsSpace(s[0]))
    ensures TrimLeft(spaces + s) == s
  {
    if spaces == "" {
      assert spaces + s == s;
    } else {
      assert (spaces + s)[1..] == spaces[1..] + s;
      TrimsLeft(spaces[1..], s);
    }
  }

  lemma {:induction false} TrimsRight(s: string, spaces: string)
    requires Spaces(spaces) && (s == "" || !IsSpace(s[|s| - 1]))
    ensures TrimRight(s + spaces) == s
  {
    if spaces == "" {
      assert s + spaces == s;
    } else {
      var n := |spaces| - 1;
      assert (s + spaces)[..|s| + n] == s + spaces[..n];
      TrimsRight(s, spaces[..n]);
    }
  }

  lemma {:induction false} TrimRightKeeps(s: string)
    requires s != "" && !IsSpace(s[0])
    ensures TrimRight(s) != "" && TrimRight(s)[0] == s[0]
  {
    if IsSpace(s[|s| - 1]) {
      TrimRightKeeps(s[..|s| - 1]);
    }
  }

  lemma TrimSpelled(l: Line)
    requires IsLine(l)
    ensures Skipped(Trim(Spelled(l))) <==> !l.KeyLine?
    ensures l.KeyLine? ==> Trim(Spelled(l)) == l.key
  {
    match l
    case KeyLine(before, key, after) =>
      assert key[0] in key && key[|key| - 1] in key;
      SpaceWithinLine(key[0]);
      SpaceWithinLine(key[|key| - 1]);
      hide Spaces;
      TrimsLeft(before, key + after);
      TrimsRight(key, after);
    case Blank(spaces) =>
      TrimsLeft(spaces, "");
      assert spaces + "" == spaces;
    case Comment(before, text) =>
      TrimsLeft(before, "#" + text);
      TrimRightKeeps("#" + text);
  }

  lemma SpelledIsOneLine(l: Line)
    requires IsLine(l)
    ensures '\n' !in Spelled(l)
  {
  }

  lemma {:induction false} SplitOne(line: string)
    requires '\n' !in line
    ensures Split(line) == [line]
  {
    if line != "" {
      assert line[0] in line;
      SplitOne(line[1..]);
      assert [line[0]] + line[1..] == line;
    }
  }

  /** Loading returns exactly the keys of the lines, in their order. */
  lemma {:induction false} FileLoads(ls: seq<Line>)
    requires ls != [] && forall i | 0 <= i < |ls| :: IsLine(ls[i])
    ensures Load(FileText(ls)) == Keys(ls)
  {
    hide IsLine, Spelled, Trim, Skipped;
    SpelledIsOneLine(ls[0]);
    TrimSpelled(ls[0]);
    if |ls| == 1 {
      SplitOne(Spelled(ls[0]));
      var lines := Split(FileText(ls));
      assert lines[0] == Spelled(ls[0]) && lines[1..] == [] && ls[1..] == [];
      assert LoadLines([]) == [] && Keys([]) == [];
    } else {
      SplitLine(Spelled(ls[0]), FileText(ls[1..]));
      var lines := Split(FileText(ls));
      assert lines[0] == Spelled(ls[0]) && lines[1..] == Split(FileText(ls[1..]));
      FileLoads(ls[1..]);
    }
  }

  lemma {:induction false} LeftParts(s: string) returns (before: string, rest: string)
    ensures s == before + rest && Spaces(before) && (rest == "" || !Spaces([rest[0]]))
  {
    if s == "" || !Spaces([s[0]]) {
      before, rest := "", s;
    } else {
      before, rest := LeftParts(s[1..]);
      assert Spaces([s[0]] + before) by { assert [s[0]][0] as int in {9, 11, 12, 13, 32, 133, 160}; }
      before := [s[0]] + before;
    }
  }

  lemma {:induction false} RightParts(s: string) returns (rest: string, after: string)
    ensures s == rest + after && Spaces(after) && (rest == "" || !Spaces([rest[|rest| - 1]]))
  {
    if s == "" || !Spaces([s[|s| - 1]]) {
      rest, after := s, "";
    } else {
      var last := s[|s| - 1];
      rest, after := RightParts(s[..|s| - 1]);
      assert Spaces(after + [last]) by { assert [last][0] as int in {9, 11, 12, 13, 32, 133, 160}; }
      after := after + [last];
    }
  }

  lemma SpaceIsInSpaces(s: string, i: nat)
    requires Spaces(s) && i < |s|
    ensures Spaces([s[i]])
  {
  }

  /** Every text without a newline is a line. */
  lemma LineOf(s: string) returns (l: Line)
    requires '\n' !in s
    ensures IsLine(l) && Spelled(l) == s
  {
    hide Spaces;
    var before, rest := LeftParts(s);
    if rest == "" {
      l := Blank(s);
      assert before == s;
    } else if rest[0] == '#' {
      l := Comment(before, rest[1..]);
      assert "#" + rest[1..] == rest;
    } else {
      var key, after := RightParts(rest);
      if key == "" {
        SpaceIsInSpaces(after, 0);
      }
      l := KeyLine(before, key, after);
    }
  }

  lemma {:induction false} LinesOf(text: string) returns (ls: seq<Line>)
    ensures ls != [] && (forall i | 0 <= i < |ls| :: IsLine(ls[i])) && FileText(ls) == text
  {
    hide IsLine, Spelled;
    if '\n' !in text {
      var l := LineOf(text);
      ls := [l];
    } else {
      var n := FirstNewline(text);
      var l := LineOf(text[..n]);
      var rest := LinesOf(text[n + 1..]);
      ls := [l] + rest;
      assert ls[1..] == rest;
      assert text == text[..n] + "\n" + text[n + 1..];
    }
  }

  lemma {:induction false} FirstNewline(text: string) returns (n: nat)
    requires '\n' in text
    ensures n < |text| && text[n] == '\n' && '\n' !in text[..n]
  {
    if text[0] == '\n' {
      n := 0;
    } else {
      var k := FirstNewline(text[1..]);
      n := k + 1;
      assert text[..n] == [text[0]] + text[1..][..k];
    }
  }

  /** Any text is a file of lines, and loading it gives their keys. */
  lemma LoadMeansKeys(text: string) returns (ls: seq<Line>)
    ensures ls != [] && (forall i | 0 <= i < |ls| :: IsLine(ls[i])) && FileText(ls) == text
    ensures Load(text) == Keys(ls)
  {
    ls := LinesOf(text);
    hide *;
    FileLoads(ls);
  }

  function KeyLines(keys: seq<string>): (ls: seq<Line>)
    ensures |ls| == |keys| + 1
  {
    if keys == [] then [Blank("")] else [KeyLine("", keys[0], "")] + KeyLines(keys[1..])
  }

  /** The written file is one line per key, nothing around it, and a final newline. */
  lemma {:induction false} TextIsKeyLines(keys: seq<string>)
    ensures Text(keys) == FileText(KeyLines(keys))
  {
    if keys != [] {
      TextIsKeyLines(keys[1..]);
      assert KeyLines(keys)[1..] == KeyLines(keys[1..]);
      assert "" + (keys[0] + "") == keys[0];
    }
  }

  // ---------------------------------------------------------------- the export of an enumeration

  lemma RenderedIsLoadable(bytes: seq<byte>)
    ensures Loadable(Registry.Render(bytes))
  {
    var s := Registry.Render(bytes);
    forall i | 0 <= i < |s|
      ensures s[i] != '\n' && !IsSpace(s[i])
    {
      if i >= 2 {
        Registry.HexIsLower(bytes, i - 2);
        assert s[i] == Registry.Hex(bytes)[i - 2];
      }
    }
    assert s[0] == '0';
  }

  /** An exported enumeration is loaded back as it was returned, key for key. */
  lemma ExportedEnumerationLoads(nodes: seq<Registry.Node>, workers: nat, steps: seq<RegistryPool.Step>,
                                 xs: seq<string>, keys: seq<string>)
    requires RegistryPool.Returns(nodes, workers, steps, xs) && Canonical(xs, keys)
    ensures keys == xs && Load(Text(keys)) == xs
  {
    RegistryPool.ReturnsUnion(nodes, workers, steps, xs);
    forall k | 0 <= k < |xs|
      ensures ToLower(xs[k]) == xs[k] && Loadable(xs[k])
    {
      assert xs[k] in xs;
      var i, j :| 0 <= i < |nodes| && 0 <= j && RegistryPool.ReadAt(nodes, i, j, xs[k]);
      RenderedIsLoadable(nodes[i].Get(j).bytes);
      RegistryPool.ReturnedKeysAreLower(nodes, workers, steps, xs, xs[k]);
    }
    CanonicalIsFixed(xs, keys);
    RoundTripIff(xs);
  }
}
