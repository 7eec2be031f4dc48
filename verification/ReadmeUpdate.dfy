/**
 * The whole of scripts/src/updateExamples.ts, on texts: the snippets are collected from the example files, and the
 * README is rewritten with them.
 */
module ReadmeUpdate {
  import opened Prelude
  import opened ExamplesSplice
  import Amounts

  // ---------- Texts and lines ----------

  predicate OneLine(s: string) {
    '\n' !in s
  }

  predicate OneLiners(lines: seq<string>) {
    forall i | 0 <= i < |lines| :: OneLine(lines[i])
  }

  function Split(s: string): (lines: seq<string>)
    ensures lines != [] && OneLiners(lines)
  {
    if s == "" then [""]
    else if s[0] == '\n' then [""] + Split(s[1..])
    else
      var rest := Split(s[1..]);
      [[s[0]] + rest[0]] + rest[1..]
  }

  function Join(lines: seq<string>): string {
    if lines == [] then "" else if |lines| == 1 then lines[0] else lines[0] + ("\n" + Join(lines[1..]))
  }

  lemma {:induction false} SplitLine(line: string, s: string)
    requires OneLine(line)
    ensures Split(line) == [line]
    ensures Split(line + ("\n" + s)) == [line] + Split(s)
    decreases |line|
  {
    if line == "" {
      assert line + ("\n" + s) == "\n" + s;
      assert ("\n" + s)[1..] == s;
    } else {
      SplitLine(line[1..], s);
      assert (line + ("\n" + s))[1..] == line[1..] + ("\n" + s);
      assert [line[0]] + line[1..] == line;
    }
  }

  /** Splitting undoes joining, except that no lines at all come back as one empty line. */
  lemma {:induction false} SplitJoin(lines: seq<string>)
    requires OneLiners(lines)
    ensures Split(Join(lines)) == if lines == [] then [""] else lines
    decreases |lines|
  {
    if |lines| == 1 {
      SplitLine(lines[0], "");
    } else if |lines| > 1 {
      SplitLine(lines[0], Join(lines[1..]));
      SplitJoin(lines[1..]);
      assert [lines[0]] + lines[1..] == lines;
    }
  }

  function ReadAll(texts: seq<string>): seq<Line> {
    seq(|texts|, i requires 0 <= i < |texts| => Read(texts[i]))
  }

  function Texts(lines: seq<Line>): seq<string> {
    seq(|lines|, i requires 0 <= i < |lines| => lines[i].text)
  }

  /** Lines that come from some text: single lines, each with the tag that is read on it. */
  predicate Genuine(lines: seq<Line>) {
    forall i | 0 <= i < |lines| :: lines[i] == Read(lines[i].text) && OneLine(lines[i].text)
  }

  function Lines(text: string): (lines: seq<Line>)
    ensures lines != [] && Genuine(lines)
  {
    ReadAll(Split(text))
  }

  lemma LinesOfJoined(lines: seq<Line>)
    requires Genuine(lines)
    ensures Lines(Join(Texts(lines))) == if lines == [] then [Read("")] else lines
  {
    SplitJoin(Texts(lines));
  }

  lemma {:induction false} SplitConcat(a: string, b: string)
    ensures Split(a + ("\n" + b)) == Split(a) + Split(b)
    decreases |a|
  {
    if a == "" {
      assert a + ("\n" + b) == "\n" + b && ("\n" + b)[1..] == b;
    } else {
      SplitConcat(a[1..], b);
      FirstOfConcat(a, "\n" + b);
      SplitFirst(a[0], Split(a[1..]), Split(b));
    }
  }

  lemma SplitFirst(c: char, s: seq<string>, t: seq<string>)
    requires s != []
    ensures if c == '\n' then [""] + (s + t) == ([""] + s) + t
            else [[c] + (s + t)[0]] + (s + t)[1..] == ([[c] + s[0]] + s[1..]) + t
  {
  }

  /** Joining undoes splitting. */
  lemma {:induction false} JoinSplit(s: string)
    ensures Join(Split(s)) == s
    decreases |s|
  {
    if s != "" {
      var rest := Split(s[1..]);
      JoinSplit(s[1..]);
      assert s == [s[0]] + s[1..];
      if s[0] == '\n' {
        assert ([""] + rest)[1..] == rest && "" + ("\n" + Join(rest)) == "\n" + Join(rest);
      } else {
        JoinLonger(s[0], rest);
      }
    }
  }

  lemma JoinLonger(c: char, lines: seq<string>)
    requires lines != []
    ensures Join([[c] + lines[0]] + lines[1..]) == [c] + Join(lines)
  {
    var longer := [[c] + lines[0]] + lines[1..];
    assert longer[1..] == lines[1..];
    if |lines| > 1 {
      Associative([c], lines[0], "\n" + Join(lines[1..]));
    }
  }

  /** Texts that read as the same lines are the same. */
  lemma SameLinesSameText(s: string, t: string)
    requires Lines(s) == Lines(t)
    ensures s == t
  {
    JoinSplit(s);
    JoinSplit(t);
    assert Texts(Lines(s)) == Split(s) && Texts(Lines(t)) == Split(t);
  }

  lemma LinesConcat(a: string, b: string)
    ensures Lines(a + ("\n" + b)) == Lines(a) + Lines(b)
  {
    SplitConcat(a, b);
  }

  /** The lines that are read when lines that may hold breaks themselves have been written. */
  function Reread(lines: seq<Line>): seq<Line> {
    if lines == [] then [] else Lines(lines[0].text) + Reread(lines[1..])
  }

  lemma {:induction false} LinesOfWritten(lines: seq<Line>)
    requires lines != []
    ensures Lines(Join(Texts(lines))) == Reread(lines)
    decreases |lines|
  {
    var texts := Texts(lines);
    if |lines| == 1 {
      assert Reread(lines) == Lines(lines[0].text) + [];
    } else {
      LinesOfWritten(lines[1..]);
      assert texts[1..] == Texts(lines[1..]);
      LinesConcat(texts[0], Join(texts[1..]));
    }
  }

  lemma {:induction false} RereadConcat(a: seq<Line>, b: seq<Line>)
    ensures Reread(a + b) == Reread(a) + Reread(b)
    decreases |a|
  {
    if a == [] {
      assert a + b == b;
    } else {
      RereadConcat(a[1..], b);
      FirstOfConcat(a, b);
      Associative(Lines(a[0].text), Reread(a[1..]), Reread(b));
    }
  }

  lemma {:induction false} RereadGenuine(lines: seq<Line>)
    ensures Genuine(Reread(lines))
    ensures Genuine(lines) ==> Reread(lines) == lines
    decreases |lines|
  {
    if lines != [] {
      RereadGenuine(lines[1..]);
      if Genuine(lines) {
        SplitLine(lines[0].text, "");
        Uncons(lines);
      }
    }
  }

  // ---------- The snippets ----------

  const HOST := "https://github.com/"
  const REPOSITORY := "wormhole-foundation/wormhole-sdk-ts"
  const FOLDER := "/blob/main/examples/src/"
  const EXAMPLE_URL := HOST + REPOSITORY + FOLDER

  datatype File = File(name: string, text: string)

  datatype Example = Example(src: string, filename: string, line: nat)

  type Examples = map<string, Example>

  function Slice<T>(s: seq<T>, start: nat, stop: nat): seq<T> {
    if start <= stop <= |s| then s[start..stop] else []
  }

  function ExampleOf(file: File, tag: Tag): Example {
    Example(Join(Texts(Slice(Lines(file.text), tag.start + 1, tag.stop))), file.name, tag.start)
  }

  predicate IsExample(name: string) {
    |name| >= 3 && name[|name| - 3..] == ".ts"
  }

  function WithTags(examples: Examples, file: File, tags: seq<Tag>): Examples
    decreases |tags|
  {
    if tags == [] then examples else WithTags(examples[tags[0].name := ExampleOf(file, tags[0])], file, tags[1..])
  }

  function WithFile(examples: Examples, file: File): Examples {
    if IsExample(file.name) then WithTags(examples, file, TagsOf(Lines(file.text), 0)) else examples
  }

  /** The snippets of the example files; a later one takes the place of an earlier one with its name. */
  function WithFiles(examples: Examples, files: seq<File>): Examples
    decreases |files|
  {
    if files == [] then examples else WithFiles(WithFile(examples, files[0]), files[1..])
  }

  method AddExamples(before: Examples, file: File) returns (examples: Examples)
    ensures examples == WithTags(before, file, TagsOf(Lines(file.text), 0))
  {
    examples := before;
    var lines := Lines(file.text);
    var tags := FindTags(lines);
    assert tags[0..] == tags;
    for k := 0 to |tags|
      invariant WithTags(before, file, tags) == WithTags(examples, file, tags[k..])
    {
      var tag := tags[k];
      assert tags[k..][1..] == tags[k + 1..];
      var src := Join(Texts(Slice(lines, tag.start + 1, tag.stop)));
      examples := examples[tag.name := Example(src, file.name, tag.start)];
    }
  }

  method CollectExamples(files: seq<File>) returns (examples: Examples)
    ensures examples == WithFiles(map[], files)
  {
    examples := map[];
    assert files[0..] == files;
    for i := 0 to |files|
      invariant WithFiles(map[], files) == WithFiles(examples, files[i..])
    {
      var file := files[i];
      assert files[i..][1..] == files[i + 1..];
      if IsExample(file.name) {
        examples := AddExamples(examples, file);
      }
    }
  }

  function Link(e: Example): string {
    "See example [here](" + EXAMPLE_URL + e.filename + ("#L" + Amounts.Print(e.line + 2) + ")")
  }

  /** The lines that are put into a region. */
  function ExampleLines(e: Example): seq<Line> {
    [Read("```ts")] + Lines(e.src) + [Read("```"), Read(Link(e))]
  }

  function SnippetsOf(examples: Examples): Snippets {
    map name | name in examples :: ExampleLines(examples[name])
  }

  /** The whole script: what is written back, unless it throws because the README has no tags. */
  function Update(readme: string, files: seq<File>): Option<string> {
    if TagsOf(Lines(readme), 0) == [] then None
    else Some(Join(Texts(Rewrite(SnippetsOf(WithFiles(map[], files)), Lines(readme)))))
  }

  method UpdateReadme(readme: string, files: seq<File>) returns (written: Option<string>)
    ensures written == Update(readme, files)
  {
    var tags := FindTags(Lines(readme));
    if |tags| == 0 {
      return None;
    }
    var examples := CollectExamples(files);
    var lines := SpliceAll(Lines(readme), tags, SnippetsOf(examples));
    return Some(Join(Texts(lines)));
  }

  // ---------- When there is something to do, and what is found ----------

  lemma {:induction false} OpenRegion(lines: seq<Line>, n: nat, name: string, start: nat)
    ensures TagsIn(lines, n, name, start) == [] <==> Plain(lines)
    decreases |lines|
  {
    if lines != [] {
      OpenRegion(lines[1..], n + 1, name, start);
      assert forall i | 0 < i < |lines| :: lines[i] == lines[1..][i - 1];
    }
  }

  /** A file has a region exactly when it has two tag lines. */
  lemma {:induction false} HasRegionIff(lines: seq<Line>, n: nat)
    ensures TagsOf(lines, n) != [] <==>
            exists i, j | 0 <= i < j < |lines| :: lines[i].tag.Some? && lines[j].tag.Some?
    decreases |lines|
  {
    if lines != [] {
      var rest := lines[1..];
      assert forall i | 0 <= i < |rest| :: rest[i] == lines[i + 1];
      if lines[0].tag.Some? {
        OpenRegion(rest, n + 1, lines[0].tag.value, n);
        if !Plain(rest) {
          var j :| 0 <= j < |rest| && rest[j].tag.Some?;
          assert lines[j + 1].tag.Some?;
        }
      } else {
        HasRegionIff(rest, n + 1);
        if i, j :| 0 <= i < j < |rest| && rest[i].tag.Some? && rest[j].tag.Some? {
          assert lines[i + 1].tag.Some? && lines[j + 1].tag.Some?;
        }
        if i, j :| 0 <= i < j < |lines| && lines[i].tag.Some? && lines[j].tag.Some? {
          assert rest[i - 1].tag.Some? && rest[j - 1].tag.Some?;
        }
      }
    }
  }

  /** The script refuses a README exactly when it has no two tag lines. */
  lemma RefusesIff(readme: string, files: seq<File>)
    ensures Update(readme, files).None? <==>
            !exists i, j | 0 <= i < j < |Lines(readme)| ::
               Lines(readme)[i].tag.Some? && Lines(readme)[j].tag.Some?
  {
    HasRegionIff(Lines(readme), 0);
  }

  /** The example files are those of TypeScript. */
  lemma IsExampleIff(name: string, stem: string)
    ensures IsExample(stem + ".ts")
    ensures IsExample(name) ==> name == name[..|name| - 3] + ".ts"
  {
  }

  predicate NamedIn(tags: seq<Tag>, name: string) {
    exists i | 0 <= i < |tags| :: tags[i].name == name
  }

  lemma {:induction false} OtherTags(examples: Examples, file: File, tags: seq<Tag>, name: string)
    requires !NamedIn(tags, name)
    ensures name in WithTags(examples, file, tags) <==> name in examples
    ensures name in examples ==> WithTags(examples, file, tags)[name] == examples[name]
    decreases |tags|
  {
    if tags != [] {
      assert tags[0].name != name && forall i | 0 <= i < |tags[1..]| :: tags[1..][i] == tags[i + 1];
      OtherTags(examples[tags[0].name := ExampleOf(file, tags[0])], file, tags[1..], name);
    }
  }

  lemma {:induction false} LastTagWins(examples: Examples, file: File, tags: seq<Tag>, j: nat)
    requires j < |tags| && !NamedIn(tags[j + 1..], tags[j].name)
    ensures var all := WithTags(examples, file, tags);
            tags[j].name in all && all[tags[j].name] == ExampleOf(file, tags[j])
    decreases |tags|
  {
    var next := examples[tags[0].name := ExampleOf(file, tags[0])];
    if j == 0 {
      OtherTags(next, file, tags[1..], tags[0].name);
    } else {
      assert tags[1..][j..] == tags[j + 1..];
      LastTagWins(next, file, tags[1..], j - 1);
    }
  }

  /** The file is no example, or holds no region of that name. */
  predicate Silent(file: File, name: string) {
    !IsExample(file.name) || !NamedIn(TagsOf(Lines(file.text), 0), name)
  }

  predicate AllSilent(files: seq<File>, name: string) {
    forall i | 0 <= i < |files| :: Silent(files[i], name)
  }

  lemma {:induction false} OtherFiles(examples: Examples, files: seq<File>, name: string)
    requires AllSilent(files, name)
    ensures name in WithFiles(examples, files) <==> name in examples
    ensures name in examples ==> WithFiles(examples, files)[name] == examples[name]
    decreases |files|
  {
    if files != [] {
      assert Silent(files[0], name) && forall i | 0 <= i < |files[1..]| :: files[1..][i] == files[i + 1];
      var tags := TagsOf(Lines(files[0].text), 0);
      if IsExample(files[0].name) {
        OtherTags(examples, files[0], tags, name);
        OtherFiles(WithTags(examples, files[0], tags), files[1..], name);
      } else {
        OtherFiles(examples, files[1..], name);
      }
    }
  }

  /** The j-th region of a TypeScript file, and the last there of its name. */
  predicate IsLastIn(file: File, stem: string, j: nat, tag: Tag) {
    && file.name == stem + ".ts"
    && var tags := TagsOf(Lines(file.text), 0);
       j < |tags| && tags[j] == tag && !NamedIn(tags[j + 1..], tag.name)
  }

  lemma FirstFileWins(examples: Examples, files: seq<File>, stem: string, j: nat, tag: Tag)
    requires files != [] && IsLastIn(files[0], stem, j, tag) && AllSilent(files[1..], tag.name)
    ensures var all := WithFiles(examples, files); tag.name in all && all[tag.name] == ExampleOf(files[0], tag)
  {
    var tags := TagsOf(Lines(files[0].text), 0);
    IsExampleIff(files[0].name, stem);
    LastTagWins(examples, files[0], tags, j);
    OtherFiles(WithTags(examples, files[0], tags), files[1..], tag.name);
  }

  /**
   * A region of an example file is the snippet of its name, unless a later one, there or in a later file, has it too.
   */
  lemma {:induction false} LastRegionWins(
    examples: Examples, files: seq<File>, k: nat, stem: string, j: nat, tag: Tag)
    requires k < |files| && IsLastIn(files[k], stem, j, tag) && AllSilent(files[k + 1..], tag.name)
    ensures var all := WithFiles(examples, files); tag.name in all && all[tag.name] == ExampleOf(files[k], tag)
    decreases |files|
  {
    if k == 0 {
      FirstFileWins(examples, files, stem, j, tag);
    } else {
      assert files[1..][k..] == files[k + 1..];
      LastRegionWins(WithFile(examples, files[0]), files[1..], k - 1, stem, j, tag);
    }
  }

  /** The link leads to the line after the snippet's own tag, in the repository. */
  lemma LinkIs(e: Example)
    ensures var folder := "https://github.com/" + "wormhole-foundation/wormhole-sdk-ts" + "/blob/main/examples/src/";
            Link(e) == "See example [here](" + folder + e.filename + ("#L" + Amounts.Print(e.line + 2) + ")")
  {
  }

  // ---------- Where the snippets come from ----------

  /** The tag delimits a region of `all`: it opens and closes on tag lines, with none in between. */
  predicate Delimits(all: seq<Line>, t: Tag) {
    && t.start < t.stop < |all| && all[t.start].tag == Some(t.name) && all[t.stop].tag.Some?
    && Plain(all[t.start + 1..t.stop])
  }

  lemma {:induction false} TagsDelimit(all: seq<Line>, i: nat, t: Tag)
    requires i <= |all| && t in TagsOf(all[i..], i)
    ensures Delimits(all, t)
    decreases |all| - i
  {
    if i < |all| {
      assert all[i..][0] == all[i] && all[i..][1..] == all[i + 1..];
      if all[i].tag.Some? {
        TagsInDelimit(all, i + 1, i, t);
      } else {
        TagsDelimit(all, i + 1, t);
      }
    }
  }

  lemma {:induction false} TagsInDelimit(all: seq<Line>, i: nat, start: nat, t: Tag)
    requires start < i <= |all| && all[start].tag.Some? && Plain(all[start + 1..i])
    requires t in TagsIn(all[i..], i, all[start].tag.value, start)
    ensures Delimits(all, t)
    decreases |all| - i
  {
    if i < |all| {
      assert all[i..][0] == all[i] && all[i..][1..] == all[i + 1..];
      if all[i].tag.Some? {
        if t != Tag(all[start].tag.value, start, i) {
          TagsDelimit(all, i + 1, t);
        }
      } else {
        assert all[start + 1..i + 1] == all[start + 1..i] + [all[i]];
        TagsInDelimit(all, i + 1, start, t);
      }
    }
  }

  /** An example is what some example file holds between two tag lines. */
  ghost predicate ComesFrom(e: Example, name: string, files: seq<File>) {
    exists f, t | f in files && t in TagsOf(Lines(f.text), 0) ::
      IsExample(f.name) && t.name == name && e == ExampleOf(f, t)
  }

  lemma {:induction false} TagsComeFrom(examples: Examples, file: File, tags: seq<Tag>, name: string)
    requires name in WithTags(examples, file, tags)
    ensures var e := WithTags(examples, file, tags)[name];
            || (name in examples && e == examples[name])
            || exists t | t in tags :: t.name == name && e == ExampleOf(file, t)
    decreases |tags|
  {
    if tags != [] {
      TagsComeFrom(examples[tags[0].name := ExampleOf(file, tags[0])], file, tags[1..], name);
    }
  }

  lemma {:induction false} FilesComeFrom(examples: Examples, files: seq<File>, name: string)
    requires name in WithFiles(examples, files)
    ensures var e := WithFiles(examples, files)[name];
            (name in examples && e == examples[name]) || ComesFrom(e, name, files)
    decreases |files|
  {
    if files != [] {
      var f := files[0];
      var e := WithFiles(examples, files)[name];
      FilesComeFrom(WithFile(examples, f), files[1..], name);
      if ComesFrom(e, name, files[1..]) {
        var g, t :| g in files[1..] && t in TagsOf(Lines(g.text), 0) && IsExample(g.name) && t.name == name &&
                    e == ExampleOf(g, t);
        assert g in files;
      } else if IsExample(f.name) {
        TagsComeFrom(examples, f, TagsOf(Lines(f.text), 0), name);
        assert f in files;
      }
    }
  }

  /** The lines put into a region are those of the example between its tag lines, fenced, and a link to them. */
  lemma ExampleLinesOf(f: File, t: Tag)
    requires Delimits(Lines(f.text), t)
    ensures var body := Lines(f.text)[t.start + 1..t.stop];
            ExampleLines(ExampleOf(f, t)) ==
              [Read("```ts")] + (if body == [] then [Read("")] else body) + [Read("```"), Read(Link(ExampleOf(f, t)))]
  {
    var e, body := ExampleOf(f, t), Lines(f.text)[t.start + 1..t.stop];
    assert e.src == Join(Texts(body));
    assert Lines(e.src) == if body == [] then [Read("")] else body by {
      LinesOfJoined(body);
    }
  }

  /** Every snippet is a region of an example file, without a tag line in it, under the name of its opening tag. */
  lemma ExamplesAreRegions(files: seq<File>, name: string) returns (f: File, t: Tag)
    requires name in WithFiles(map[], files)
    ensures f in files && IsExample(f.name) && t.name == name && Delimits(Lines(f.text), t)
    ensures WithFiles(map[], files)[name] == ExampleOf(f, t)
  {
    var e := WithFiles(map[], files)[name];
    FilesComeFrom(map[], files, name);
    f, t :| f in files && t in TagsOf(Lines(f.text), 0) && IsExample(f.name) && t.name == name && e == ExampleOf(f, t);
    var all := Lines(f.text);
    assert all[0..] == all;
    TagsDelimit(all, 0, t);
  }

  // ---------- Which inserted lines would pass for tag lines ----------

  lemma MarkIffMarkAt(line: string, i: nat)
    requires MarkAt(line, i)
    ensures HasMark(line)
  {
    assert MarkFrom(line, 0) <= i;
  }

  /** A mark begins with a capital E and holds neither a number sign nor a line break. */
  lemma MarkChars(line: string, m: nat)
    requires MarkAt(line, m)
    ensures line[m] == 'E'
    ensures forall j | m <= j < m + |MARK| :: line[j] != '#' && line[j] != '\n'
  {
    assert line[m..m + |MARK|][0] == line[m];
    forall j | m <= j < m + |MARK| ensures line[j] != '#' && line[j] != '\n' {
      assert line[m..m + |MARK|][j - m] == line[j];
      assert MARK[j - m] != '#' && MARK[j - m] != '\n';
    }
  }

  /** A mark in a part of a text is a mark in the text, and one within the bounds of the part is one in the part. */
  lemma MarkInPart(before: string, part: string, after: string, i: nat)
    requires i + |MARK| <= |part|
    ensures MarkAt(before + part + after, |before| + i) <==> MarkAt(part, i)
  {
    var s, n := before + part + after, |before| + i;
    assert s[n..n + |MARK|] == part[i..i + |MARK|];
  }

  lemma UrlHasNoE()
    ensures 'E' !in "See example [here](" + EXAMPLE_URL
  {
    assert 'E' !in HOST;
    assert 'E' !in REPOSITORY;
    assert 'E' !in FOLDER;
  }

  lemma SuffixHasNoE(n: nat)
    ensures 'E' !in "#L" + Amounts.Print(n) + ")"
  {
    var digits := Amounts.Print(n);
    forall i | 0 <= i < |digits| ensures digits[i] != 'E' {
      assert Amounts.IsDigit(digits[i]);
    }
  }

  /** Between a text without a capital E and one that starts with a number sign, a mark lies wholly inside. */
  lemma MarkInside(before: string, inside: string, after: string)
    requires 'E' !in before && 'E' !in after && after != "" && after[0] == '#'
    ensures HasMark(before + inside + after) <==> HasMark(inside)
  {
    var line := before + inside + after;
    var n := |before|;
    if HasMark(inside) {
      var i := MarkFrom(inside, 0);
      assert line[n + i..n + i + |MARK|] == inside[i..i + |MARK|];
      MarkIffMarkAt(line, n + i);
    }
    if HasMark(line) {
      var m := MarkFrom(line, 0);
      assert m < n ==> line[m] == before[m];
      assert m >= n + |inside| ==> line[m] == after[m - n - |inside|];
      MarkChars(line, m);
      var i := m - n;
      assert line[n + |inside|] == '#';
      assert inside[i..i + |MARK|] == line[m..m + |MARK|];
      MarkIffMarkAt(inside, i);
    }
  }

  /** The link line passes for a tag line exactly when the name of the example file does. */
  lemma LinkMarkIff(e: Example)
    ensures HasMark(Link(e)) <==> HasMark(e.filename)
  {
    UrlHasNoE();
    SuffixHasNoE(e.line + 2);
    MarkInside("See example [here](" + EXAMPLE_URL, e.filename, "#L" + Amounts.Print(e.line + 2) + ")");
  }

  /** No mark runs over a line break. */
  lemma MarkAcross(a: string, b: string)
    ensures HasMark(a + ("\n" + b)) <==> HasMark(a) || HasMark(b)
  {
    var s, n := a + ("\n" + b), |a| + 1;
    assert s == "" + a + ("\n" + b) && s == (a + "\n") + b + "";
    if HasMark(a) {
      MarkInPart("", a, "\n" + b, MarkFrom(a, 0));
      MarkIffMarkAt(s, MarkFrom(a, 0));
    }
    if HasMark(b) {
      MarkInPart(a + "\n", b, "", MarkFrom(b, 0));
      MarkIffMarkAt(s, n + MarkFrom(b, 0));
    }
    if HasMark(s) {
      MarkOnOneSide(a, b, MarkFrom(s, 0));
    }
  }

  lemma MarkOnOneSide(a: string, b: string, m: nat)
    requires MarkAt(a + ("\n" + b), m)
    ensures HasMark(a) || HasMark(b)
  {
    var s, n := a + ("\n" + b), |a| + 1;
    MarkChars(s, m);
    assert s[|a|] == '\n';
    assert s == "" + a + ("\n" + b) && s == (a + "\n") + b + "";
    if m < n {
      MarkInPart("", a, "\n" + b, m);
      MarkIffMarkAt(a, m);
    } else {
      MarkInPart(a + "\n", b, "", m - n);
      MarkIffMarkAt(b, m - n);
    }
  }

  lemma {:induction false} FirstBreak(s: string) returns (a: string, b: string)
    requires !OneLine(s)
    ensures s == a + ("\n" + b) && OneLine(a)
    decreases |s|
  {
    if s[0] == '\n' {
      a, b := "", s[1..];
    } else {
      a, b := FirstBreak(s[1..]);
      a := [s[0]] + a;
    }
  }

  lemma OneLineTag(s: string)
    requires OneLine(s)
    ensures Plain(Lines(s)) <==> !HasMark(s)
  {
    SplitLine(s, "");
    assert Lines(s) == [Read(s)];
    assert Plain([Read(s)]) <==> [Read(s)][0].tag.None?;
  }

  /** A text has a tag line exactly when it has a mark. */
  lemma {:induction false} TagLineIffMark(s: string)
    ensures Plain(Lines(s)) <==> !HasMark(s)
    decreases |s|
  {
    if OneLine(s) {
      OneLineTag(s);
    } else {
      var a, b := FirstBreak(s);
      LinesConcat(a, b);
      MarkAcross(a, b);
      OneLineTag(a);
      TagLineIffMark(b);
      PlainConcat(Lines(a), Lines(b));
    }
  }

  lemma ShortLinesHaveNoMark()
    ensures !HasMark("```ts") && !HasMark("```") && !HasMark("")
  {
  }

  /** What is read of a snippet once it is written: a link with line breaks in it takes several lines. */
  lemma RereadSnippet(e: Example)
    ensures Reread(ExampleLines(e)) == [Read("```ts")] + Lines(e.src) + ([Read("```")] + Lines(Link(e)))
  {
    var first, middle, last := [Read("```ts")], Lines(e.src), [Read("```"), Read(Link(e))];
    RereadConcat(first + middle, last);
    RereadConcat(first, middle);
    RereadGenuine(first);
    RereadGenuine(middle);
    RereadFence(Read(Link(e)));
  }

  lemma RereadFence(link: Line)
    ensures Reread([Read("```"), link]) == [Read("```")] + Lines(link.text)
  {
    var last := [Read("```"), link];
    RereadGenuine([Read("```")]);
    assert last == [Read("```")] + [link];
    RereadConcat([Read("```")], [link]);
    assert Reread([link]) == Lines(link.text) + Reread([link][1..]);
  }

  /** So a written snippet is free of tag lines exactly when the name of its file is free of marks. */
  lemma SnippetPlainIff(files: seq<File>, name: string)
    requires name in WithFiles(map[], files)
    ensures Plain(Reread(ExampleLines(WithFiles(map[], files)[name]))) <==>
            !HasMark(WithFiles(map[], files)[name].filename)
  {
    var f, t := ExamplesAreRegions(files, name);
    var e := ExampleOf(f, t);
    ShortLinesHaveNoMark();
    RereadSnippet(e);
    SourceIsPlain(f, t);
    LinkMarkIff(e);
    TagLineIffMark(Link(e));
    var first, middle, last := [Read("```ts")], Lines(e.src), [Read("```")] + Lines(Link(e));
    PlainConcat(first + middle, last);
    PlainConcat(first, middle);
    PlainConcat([Read("```")], Lines(Link(e)));
  }

  lemma SourceIsPlain(f: File, t: Tag)
    requires Delimits(Lines(f.text), t)
    ensures Plain(Lines(ExampleOf(f, t).src))
  {
    var body := Lines(f.text)[t.start + 1..t.stop];
    ShortLinesHaveNoMark();
    assert ExampleOf(f, t).src == Join(Texts(body));
    LinesOfJoined(body);
  }

  lemma PlainConcat(a: seq<Line>, b: seq<Line>)
    ensures Plain(a + b) <==> Plain(a) && Plain(b)
  {
    if Plain(a + b) {
      forall i | 0 <= i < |a| ensures a[i].tag.None? { assert (a + b)[i] == a[i]; }
      forall i | 0 <= i < |b| ensures b[i].tag.None? { assert (a + b)[|a| + i] == b[i]; }
    }
  }

  // ---------- Names ----------

  predicate Unbroken(s: string) {
    forall i | 0 <= i < |s| :: s[i] !in {'\n', '\r', '\U{2028}', '\U{2029}'}
  }

  predicate AllNameChars(s: string) {
    forall i | 0 <= i < |s| :: NameChar(s[i])
  }

  lemma {:induction false} ToTerminatorSkips(p: string, s: string)
    requires Unbroken(p)
    ensures ToTerminator(p + s) == p + ToTerminator(s)
    decreases |p|
  {
    if p == "" {
      assert p + s == s;
    } else {
      ToTerminatorSkips(p[1..], s);
      assert (p + s)[1..] == p[1..] + s;
      assert p == [p[0]] + p[1..];
    }
  }

  lemma {:induction false} OnlyNameCharsOf(p: string, s: string)
    requires AllNameChars(p)
    ensures OnlyNameChars(p + s) == p + OnlyNameChars(s)
    ensures AllNameChars(OnlyNameChars(s))
    decreases |p|, |s|
  {
    if p != "" {
      OnlyNameCharsOf(p[1..], s);
      assert (p + s)[1..] == p[1..] + s;
      assert p == [p[0]] + p[1..];
    } else {
      assert p + s == s;
      if s != "" {
        OnlyNameCharsOf("", s[1..]);
      }
    }
  }

  /** The name of a tag line begins with the mark and is made of capitals and underscores. */
  lemma NameForm(line: string)
    requires HasMark(line)
    ensures MarkAt(NameOf(line), 0) && AllNameChars(NameOf(line))
  {
    var s := line[MarkFrom(line, 0)..];
    var rest := s[|MARK|..];
    assert s == MARK + rest;
    ToTerminatorSkips(MARK, rest);
    OnlyNameCharsOf(MARK, ToTerminator(rest));
    var name := NameOf(line);
    assert name[0..|MARK|] == MARK;
    forall i | 0 <= i < |name| ensures NameChar(name[i]) {
      assert i >= |MARK| ==> name[i] == OnlyNameChars(ToTerminator(rest))[i - |MARK|];
    }
  }

  /** And so a name, on a line of its own, is a tag line of that name. */
  lemma NamesNameThemselves(line: string)
    requires HasMark(line)
    ensures Read(NameOf(line)).tag == Some(NameOf(line)) && OneLine(NameOf(line))
  {
    var name := NameOf(line);
    NameForm(line);
    assert name[0..] == name && name + "" == name;
    ToTerminatorSkips(name, "");
    OnlyNameCharsOf(name, "");
    forall i | 0 <= i < |name| ensures name[i] != '\n' {
      assert NameChar(name[i]);
    }
  }

  // ---------- Running the script again ----------

  /** The snippets as they are read once they are written. */
  function Written(files: seq<File>): Snippets {
    Flattened(SnippetsOf(WithFiles(map[], files)))
  }

  function Flattened(snippets: Snippets): Snippets {
    map name | name in snippets :: Reread(snippets[name])
  }

  lemma WrittenArePlain(files: seq<File>)
    requires forall name | name in WithFiles(map[], files) :: !HasMark(WithFiles(map[], files)[name].filename)
    ensures AllPlain(Written(files))
  {
    forall name | name in WithFiles(map[], files)
      ensures Plain(Reread(ExampleLines(WithFiles(map[], files)[name])))
    {
      SnippetPlainIff(files, name);
    }
  }

  /** Reading what was rewritten is rewriting with the snippets as they are read. */
  lemma {:induction false} RewriteReread(snippets: Snippets, lines: seq<Line>)
    requires Genuine(lines)
    ensures Reread(Rewrite(snippets, lines)) == Rewrite(Flattened(snippets), lines)
    decreases |lines|
  {
    if lines != [] {
      RereadGenuine([lines[0]]);
      if lines[0].tag.Some? {
        RegionReread(snippets, lines[0].tag.value, [], lines[1..]);
        RereadConcat([lines[0]], Region(snippets, lines[0].tag.value, [], lines[1..]));
      } else {
        RewriteReread(snippets, lines[1..]);
        RereadConcat([lines[0]], Rewrite(snippets, lines[1..]));
      }
    }
  }

  lemma CloseReread(items: seq<Line>, close: Line, end: seq<Line>)
    requires Genuine([close])
    ensures Reread(items + ([close] + end)) == Reread(items) + ([close] + Reread(end))
  {
    RereadGenuine([close]);
    RereadConcat(items, [close] + end);
    RereadConcat([close], end);
  }

  lemma {:induction false} RegionReread(snippets: Snippets, name: string, body: seq<Line>, lines: seq<Line>)
    requires Genuine(lines) && Genuine(body)
    ensures Reread(Region(snippets, name, body, lines)) == Region(Flattened(snippets), name, body, lines)
    decreases |lines|
  {
    RereadGenuine(body);
    if lines != [] {
      if lines[0].tag.Some? {
        RewriteReread(snippets, lines[1..]);
        CloseReread(Replacement(snippets, name, body), lines[0], Rewrite(snippets, lines[1..]));
      } else {
        RegionReread(snippets, name, body + [lines[0]], lines[1..]);
      }
    }
  }

  /** What is written back is read back as the rewriting with the snippets as they are read. */
  lemma WrittenLines(readme: string, files: seq<File>)
    requires Update(readme, files).Some?
    ensures Lines(Update(readme, files).value) == Rewrite(Written(files), Lines(readme))
  {
    var snippets := SnippetsOf(WithFiles(map[], files));
    var after := Rewrite(snippets, Lines(readme));
    assert after != [];
    LinesOfWritten(after);
    RewriteReread(snippets, Lines(readme));
  }

  lemma NamesOfNone(tags: seq<Tag>)
    ensures Names(tags) == [] <==> tags == []
  {
  }

  /** Running the script again changes nothing: no example file has a mark in its name. */
  lemma UpdateTwice(readme: string, files: seq<File>)
    requires forall name | name in WithFiles(map[], files) :: !HasMark(WithFiles(map[], files)[name].filename)
    requires Update(readme, files).Some?
    ensures Update(Update(readme, files).value, files) == Update(readme, files)
  {
    var snippets, lines := Written(files), Lines(readme);
    var written := Update(readme, files).value;
    WrittenLines(readme, files);
    WrittenArePlain(files);
    RewriteTwice(snippets, lines);
    TagsStay(snippets, lines, 0, 0);
    NamesOfNone(TagsOf(lines, 0));
    NamesOfNone(TagsOf(Lines(written), 0));
    WrittenLines(written, files);
    SameLinesSameText(written, Update(written, files).value);
  }

  /** Where a snippet holds a tag line, a region of its name grows every time. */
  lemma RegionGrows(snippets: Snippets, n: Line)
    requires n.tag.Some? && n.tag.value in snippets && !Plain(snippets[n.tag.value])
    ensures var once := Rewrite(snippets, [n, n]);
            |Rewrite(snippets, once)| > |once|
  {
    var name := n.tag.value;
    var s := snippets[name];
    assert [n, n][1..] == [n] && [n][1..] == [];
    assert Region(snippets, name, [], [n]) == s + ([n] + []);
    assert Rewrite(snippets, [n, n]) == [n] + (s + [n]);
    var pre, t, post := FirstTagLine(s);
    assert s + [n] == pre + ([t] + (post + [n]));
    RegionClosed(snippets, name, pre, t, post + [n]);
    FirstOfConcat([n], s + [n]);
    assert post + [n] != [];
    assert |Rewrite(snippets, post + [n])| >= 1;
  }

  lemma {:induction false} FirstTagLine(s: seq<Line>) returns (pre: seq<Line>, t: Line, post: seq<Line>)
    requires !Plain(s)
    ensures s == pre + ([t] + post) && Plain(pre) && t.tag.Some?
    decreases |s|
  {
    if s[0].tag.Some? {
      pre, t, post := [], s[0], s[1..];
    } else {
      pre, t, post := FirstTagLine(s[1..]);
      pre := [s[0]] + pre;
    }
  }

  ghost predicate Settles(files: seq<File>) {
    forall readme :: Update(readme, files).Some? ==> Update(Update(readme, files).value, files) == Update(readme, files)
  }

  /** A README that does not settle, when the file of some snippet has a mark in its name. */
  lemma Unsettled(files: seq<File>, name: string) returns (readme: string)
    requires name in WithFiles(map[], files) && HasMark(WithFiles(map[], files)[name].filename)
    ensures Update(readme, files).Some? && Update(Update(readme, files).value, files) != Update(readme, files)
  {
    var snippets := Written(files);
    var f, t := ExamplesAreRegions(files, name);
    var line := Lines(f.text)[t.start].text;
    NamesNameThemselves(line);
    var n := Read(name);
    readme := Join([name, name]);
    NameTwice(name);
    WrittenLines(readme, files);
    SnippetPlainIff(files, name);
    RegionGrows(snippets, n);
    var written := Update(readme, files).value;
    if Update(written, files) == Some(written) {
      WrittenLines(written, files);
    }
  }

  /** A README of nothing but a name, twice: one empty region. */
  lemma NameTwice(name: string)
    requires Read(name).tag == Some(name) && OneLine(name)
    ensures Lines(Join([name, name])) == [Read(name), Read(name)]
    ensures TagsOf(Lines(Join([name, name])), 0) != []
  {
    var n := Read(name);
    assert Texts([n, n]) == [name, name];
    LinesOfJoined([n, n]);
    TwoLines(n, name);
  }

  lemma TwoLines(n: Line, name: string)
    requires n.tag == Some(name)
    ensures TagsOf([n, n], 0) == [Tag(name, 0, 1)]
  {
    assert [n, n][1..] == [n] && [n][1..] == [];
    assert TagsIn([n], 1, name, 0) == [Tag(name, 0, 1)] + TagsOf([], 2);
  }

  /**
   * The script settles after one run, on every README, exactly when no snippet comes from a file with a mark in its
   * name.
   */
  lemma SettlesIff(files: seq<File>)
    ensures Settles(files) <==>
            forall name | name in WithFiles(map[], files) :: !HasMark(WithFiles(map[], files)[name].filename)
  {
    if forall name | name in WithFiles(map[], files) :: !HasMark(WithFiles(map[], files)[name].filename) {
      forall readme | Update(readme, files).Some?
        ensures Update(Update(readme, files).value, files) == Update(readme, files)
      {
        UpdateTwice(readme, files);
      }
    } else {
      var name :| name in WithFiles(map[], files) && HasMark(WithFiles(map[], files)[name].filename);
      var readme := Unsettled(files, name);
    }
  }
}
