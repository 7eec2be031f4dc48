/**
 * The script that copies example snippets into the README (scripts/src/updateExamples.ts): it finds tagged regions,
 * and splices a snippet into each, keeping track of how far the lines have moved.
 */
module ExamplesSplice {
  import opened Prelude

  // ---------- Tags ----------

  const MARK := "EXAMPLE_"

  predicate MarkAt(line: string, i: nat) {
    i + |MARK| <= |line| && line[i..i + |MARK|] == MARK
  }

  /** Where the first mark at or after `i` begins, or the end of the line. */
  function MarkFrom(line: string, i: nat): (m: nat)
    requires i <= |line|
    ensures i <= m <= |line|
    ensures m < |line| ==> MarkAt(line, m)
    ensures forall j | i <= j < m :: !MarkAt(line, j)
    decreases |line| - i
  {
    if i == |line| || MarkAt(line, i) then i else MarkFrom(line, i + 1)
  }

  predicate HasMark(line: string) {
    MarkFrom(line, 0) < |line|
  }

  /** A dot of the pattern does not match a line terminator. */
  function ToTerminator(s: string): string {
    if s == "" || s[0] in {'\n', '\r', '\U{2028}', '\U{2029}'} then "" else [s[0]] + ToTerminator(s[1..])
  }

  predicate NameChar(c: char) {
    'A' <= c <= 'Z' || c == '_'
  }

  function OnlyNameChars(s: string): string {
    if s == "" then "" else (if NameChar(s[0]) then [s[0]] else "") + OnlyNameChars(s[1..])
  }

  /** The name of a tag line: from its first mark on, capitals and underscores only. */
  function NameOf(line: string): string {
    OnlyNameChars(ToTerminator(line[MarkFrom(line, 0)..]))
  }

  // ---------- What the names are ----------

  /** The pattern's text stands at `i`. */
  predicate StandsAt(line: string, i: nat) {
    i + 8 <= |line| && line[i..i + 8] == "EXAMPLE_"
  }

  predicate IsTerminator(c: char) {
    c == '\n' || c == '\r' || c == '\U{2028}' || c == '\U{2029}'
  }

  predicate IsCapital(c: char) {
    c == '_' || 65 <= c as int <= 90
  }

  /** `name` is what is left of `s` without anything but capitals and underscores, read up to a line terminator. */
  predicate Gathers(s: string, name: string)
    decreases |s|
  {
    if s == "" || IsTerminator(s[0]) then name == ""
    else if IsCapital(s[0]) then name != "" && name[0] == s[0] && Gathers(s[1..], name[1..])
    else Gathers(s[1..], name)
  }

  lemma {:induction false} FirstMark(line: string, i: nat, j: nat)
    requires i <= j <= |line| && StandsAt(line, j) && forall k | i <= k < j :: !StandsAt(line, k)
    ensures MarkFrom(line, i) == j
    decreases j - i
  {
    if i < j {
      assert !StandsAt(line, i);
      FirstMark(line, i + 1, j);
    }
  }

  lemma {:induction false} GathersName(s: string)
    ensures Gathers(s, OnlyNameChars(ToTerminator(s)))
    decreases |s|
  {
    if s != "" {
      GathersName(s[1..]);
      if !IsTerminator(s[0]) {
        var rest := OnlyNameChars(ToTerminator(s[1..]));
        assert ToTerminator(s)[1..] == ToTerminator(s[1..]);
        assert "" + rest == rest && ([s[0]] + rest)[1..] == rest;
      }
    }
  }

  /**
   * A line is a tag line exactly when the pattern's text stands somewhere in it, and then its name is what is gathered
   * from the first such place on.
   */
  lemma ReadIs(text: string)
    ensures Read(text).tag.Some? <==> exists i | 0 <= i < |text| :: StandsAt(text, i)
    ensures forall i | 0 <= i < |text| && StandsAt(text, i) && (forall k | 0 <= k < i :: !StandsAt(text, k)) ::
              Read(text).tag.Some? && Gathers(text[i..], Read(text).tag.value)
  {
    var m := MarkFrom(text, 0);
    if m < |text| {
      assert StandsAt(text, m);
    }
    forall i | 0 <= i < |text| && StandsAt(text, i)
      ensures Read(text).tag.Some?
      ensures (forall k | 0 <= k < i :: !StandsAt(text, k)) ==> Gathers(text[i..], Read(text).tag.value)
    {
      assert MarkAt(text, i);
      if forall k | 0 <= k < i :: !StandsAt(text, k) {
        FirstMark(text, 0, i);
        GathersName(text[i..]);
      }
    }
  }

  /** A line with what the pattern finds on it. */
  datatype Line = Line(text: string, tag: Option<string>)

  function Read(text: string): Line {
    Line(text, if HasMark(text) then Some(NameOf(text)) else None)
  }

  datatype Tag = Tag(name: string, start: nat, stop: nat)

  /** The tags found in lines numbered from `n` on, outside any region. */
  function TagsOf(lines: seq<Line>, n: nat): seq<Tag>
    decreases |lines|
  {
    if lines == [] then []
    else if lines[0].tag.Some? then TagsIn(lines[1..], n + 1, lines[0].tag.value, n)
    else TagsOf(lines[1..], n + 1)
  }

  /** The same inside a region with a name and a first line; the next tag line closes it, whatever its name. */
  function TagsIn(lines: seq<Line>, n: nat, name: string, start: nat): seq<Tag>
    decreases |lines|
  {
    if lines == [] then []
    else if lines[0].tag.Some? then [Tag(name, start, n)] + TagsOf(lines[1..], n + 1)
    else TagsIn(lines[1..], n + 1, name, start)
  }

  /** `findTags`. */
  method FindTags(lines: seq<Line>) returns (tags: seq<Tag>)
    ensures tags == TagsOf(lines, 0)
  {
    tags := [];
    var current: Option<Tag> := None;
    assert lines[0..] == lines;
    for i := 0 to |lines|
      invariant TagsOf(lines, 0) ==
                tags + if current.None? then TagsOf(lines[i..], i)
                       else TagsIn(lines[i..], i, current.value.name, current.value.start)
    {
      assert lines[i..][1..] == lines[i + 1..];
      var line := lines[i];
      if line.tag.Some? {
        if current.None? {
          current := Some(Tag(line.tag.value, i, 0));
        } else {
          tags := tags + [current.value.(stop := i)];
          current := None;
        }
      }
    }
  }

  // ---------- The rewriting, all regions at once ----------

  type Snippets = map<string, seq<Line>>

  /** What a region holds afterwards: its snippet, or what it held if there is none for its name. */
  function Replacement(snippets: Snippets, name: string, body: seq<Line>): seq<Line> {
    if name in snippets then snippets[name] else body
  }

  function Rewrite(snippets: Snippets, lines: seq<Line>): seq<Line>
    decreases |lines|
  {
    if lines == [] then []
    else [lines[0]] + if lines[0].tag.Some? then Region(snippets, lines[0].tag.value, [], lines[1..])
                      else Rewrite(snippets, lines[1..])
  }

  /** Inside a region; one that is never closed is left as it is. */
  function Region(snippets: Snippets, name: string, body: seq<Line>, lines: seq<Line>): seq<Line>
    decreases |lines|
  {
    if lines == [] then body
    else if lines[0].tag.Some? then Replacement(snippets, name, body) + ([lines[0]] + Rewrite(snippets, lines[1..]))
    else Region(snippets, name, body + [lines[0]], lines[1..])
  }

  lemma Uncons<T>(s: seq<T>)
    requires s != []
    ensures s == [s[0]] + s[1..]
  {
  }

  /** The lines of a file up to and with an opening tag, the body of its region, the closing tag, and the rest. */
  datatype Parts<T> = Parts(head: seq<T>, body: seq<T>, close: T, rest: seq<T>)
  {
    function Whole(): seq<T> {
      head + (body + ([close] + rest))
    }

    function Put(items: seq<T>, end: seq<T>): seq<T> {
      head + (items + ([close] + end))
    }
  }

  /**
   * The lines from number `n` on have these tags and become `rewritten`: if there is a tag, `p` cuts them at the region
   * of the first one.
   */
  predicate Cuts(snippets: Snippets, lines: seq<Line>, n: nat, tags: seq<Tag>, rewritten: seq<Line>, p: Parts<Line>) {
    if tags == [] then rewritten == lines
    else
      && tags[0].start + 1 == n + |p.head| && tags[0].stop == n + |p.head| + |p.body|
      && tags[1..] == TagsOf(p.rest, tags[0].stop + 1)
      && lines == p.Whole()
      && rewritten == p.Put(Replacement(snippets, tags[0].name, p.body), Rewrite(snippets, p.rest))
  }

  lemma LongerHead(snippets: Snippets, x: Line, lines: seq<Line>, n: nat, tags: seq<Tag>, rewritten: seq<Line>,
    p: Parts<Line>)
    requires Cuts(snippets, lines, n + 1, tags, rewritten, p)
    ensures Cuts(snippets, [x] + lines, n, tags, [x] + rewritten, Parts([x] + p.head, p.body, p.close, p.rest))
  {
    if tags != [] {
      var end := [p.close] + Rewrite(snippets, p.rest);
      Associative([x], p.head, p.body + ([p.close] + p.rest));
      Associative([x], p.head, Replacement(snippets, tags[0].name, p.body) + end);
    }
  }

  /** In a region, the lines up to the next tag line are its body. */
  lemma {:induction false} FirstClose(
    snippets: Snippets, name: string, body: seq<Line>, lines: seq<Line>, n: nat, start: nat)
    returns (p: Parts<Line>)
    requires start + 1 + |body| == n
    ensures Cuts(snippets, body + lines, start + 1, TagsIn(lines, n, name, start),
                 Region(snippets, name, body, lines), p)
    ensures p.head == []
    decreases |lines|
  {
    p := Parts([], [], Line("", None), []);
    if lines != [] {
      Uncons(lines);
      if lines[0].tag.Some? {
        p := Parts([], body, lines[0], lines[1..]);
      } else {
        p := FirstClose(snippets, name, body + [lines[0]], lines[1..], n + 1, start);
        Associative(body, [lines[0]], lines[1..]);
      }
    }
  }

  /** What the rewriting makes of the lines, in terms of the first tag found in them. */
  lemma {:induction false} FirstRegion(snippets: Snippets, lines: seq<Line>, n: nat) returns (p: Parts<Line>)
    ensures Cuts(snippets, lines, n, TagsOf(lines, n), Rewrite(snippets, lines), p)
    decreases |lines|
  {
    p := Parts([], [], Line("", None), []);
    if lines != [] {
      var first, rest := lines[0], lines[1..];
      Uncons(lines);
      if first.tag.Some? {
        p := FirstClose(snippets, first.tag.value, [], rest, n + 1, n);
        assert [] + rest == rest;
        LongerHead(snippets, first, rest, n, TagsIn(rest, n + 1, first.tag.value, n),
          Region(snippets, first.tag.value, [], rest), p);
      } else {
        p := FirstRegion(snippets, rest, n + 1);
        LongerHead(snippets, first, rest, n, TagsOf(rest, n + 1), Rewrite(snippets, rest), p);
      }
      p := Parts([first] + p.head, p.body, p.close, p.rest);
    }
  }

  // ---------- The splice loop does the same ----------

  /** `Array.prototype.splice`, with a start and a count within the array, in terms of what it cuts the array into. */
  method Splice<T>(lines: seq<T>, start: nat, count: nat, items: seq<T>,
    ghost before: seq<T>, ghost body: seq<T>, ghost after: seq<T>)
    returns (spliced: seq<T>)
    requires lines == before + body + after && |before| == start && |body| == count
    ensures spliced == before + items + after
  {
    spliced := lines[..start] + items + lines[start + count..];
  }

  lemma Regroup<T>(done: seq<T>, p: Parts<T>, items: seq<T>, end: seq<T>)
    ensures done + p.Whole() == (done + p.head) + p.body + ([p.close] + p.rest)
    ensures (done + p.head) + items + ([p.close] + end) == (done + p.head + items + [p.close]) + end
    ensures done + p.Put(items, end) == (done + p.head + items + [p.close]) + end
  {
  }

  /**
   * The loop over the tags: every region is replaced in the lines as they have become, at its place plus the offset.
   */
  method SpliceAll(readme: seq<Line>, tags: seq<Tag>, snippets: Snippets) returns (lines: seq<Line>)
    requires tags == TagsOf(readme, 0)
    ensures lines == Rewrite(snippets, readme)
  {
    var offset: int := 0;
    lines := readme;
    // The lines before line `e` of the original have become `done`; those from it on, `left`, are as they were.
    ghost var e: nat, done: seq<Line>, left := 0, [], readme;
    for k := 0 to |tags|
      invariant lines == done + left && |done| == e + offset
      invariant Rewrite(snippets, readme) == done + Rewrite(snippets, left)
      invariant tags[k..] == TagsOf(left, e)
    {
      var tag := tags[k];
      ghost var p := FirstRegion(snippets, left, e);
      assert tags[k..][0] == tag && tags[k..][1..] == tags[k + 1..];
      Regroup(done, p, p.body, p.rest);
      Regroup(done, p, Replacement(snippets, tag.name, p.body), p.rest);
      Regroup(done, p, Replacement(snippets, tag.name, p.body), Rewrite(snippets, p.rest));
      if tag.name in snippets {
        var items := snippets[tag.name];
        lines := Splice(lines, offset + tag.start + 1, tag.stop - tag.start - 1, items,
                        done + p.head, p.body, [p.close] + p.rest);
        offset := offset + |items| - (tag.stop - tag.start - 1);
      }
      e, done, left := tag.stop + 1, done + p.head + Replacement(snippets, tag.name, p.body) + [p.close], p.rest;
    }
    ghost var p := FirstRegion(snippets, left, e);
  }

  // ---------- What the rewriting leaves alone, and doing it again ----------

  predicate Plain(lines: seq<Line>) {
    forall i | 0 <= i < |lines| :: lines[i].tag.None?
  }

  /** No snippet holds a tag line. */
  predicate AllPlain(snippets: Snippets) {
    forall name | name in snippets :: Plain(snippets[name])
  }

  lemma FirstOfConcat<T>(s: seq<T>, t: seq<T>)
    requires s != []
    ensures (s + t)[0] == s[0] && (s + t)[1..] == s[1..] + t
  {
  }

  lemma {:induction false} RegionPlain(
    snippets: Snippets, name: string, body: seq<Line>, plain: seq<Line>, rest: seq<Line>)
    requires Plain(plain)
    ensures Region(snippets, name, body, plain + rest) == Region(snippets, name, body + plain, rest)
    decreases |plain|
  {
    if plain == [] {
      assert plain + rest == rest && body + plain == body;
    } else {
      RegionPlain(snippets, name, body + [plain[0]], plain[1..], rest);
      FirstOfConcat(plain, rest);
      Uncons(plain);
      Associative(body, [plain[0]], plain[1..]);
    }
  }

  /** A region that is closed after a plain body. */
  lemma RegionClosed(snippets: Snippets, name: string, body: seq<Line>, close: Line, rest: seq<Line>)
    requires Plain(body) && close.tag.Some?
    ensures Region(snippets, name, [], body + ([close] + rest)) ==
            Replacement(snippets, name, body) + ([close] + Rewrite(snippets, rest))
  {
    RegionPlain(snippets, name, [], body, [close] + rest);
    assert [] + body == body;
    FirstOfConcat([close], rest);
    assert [close][1..] + rest == rest;
  }

  lemma RegionUnclosed(snippets: Snippets, name: string, body: seq<Line>)
    requires Plain(body)
    ensures Region(snippets, name, [], body) == body
  {
    RegionPlain(snippets, name, [], body, []);
    assert body + [] == body && [] + body == body;
  }

  /** Rewriting what has been rewritten changes nothing, as long as no snippet holds a tag line. */
  lemma {:induction false} RewriteTwice(snippets: Snippets, lines: seq<Line>)
    requires AllPlain(snippets)
    ensures Rewrite(snippets, Rewrite(snippets, lines)) == Rewrite(snippets, lines)
    decreases |lines|
  {
    if lines != [] {
      var rest := lines[1..];
      if lines[0].tag.Some? {
        RegionTwice(snippets, lines[0].tag.value, [], rest);
        FirstOfConcat([lines[0]], Region(snippets, lines[0].tag.value, [], rest));
      } else {
        RewriteTwice(snippets, rest);
        FirstOfConcat([lines[0]], Rewrite(snippets, rest));
      }
    }
  }

  lemma {:induction false} RegionTwice(snippets: Snippets, name: string, body: seq<Line>, lines: seq<Line>)
    requires AllPlain(snippets) && Plain(body)
    ensures Region(snippets, name, [], Region(snippets, name, body, lines)) == Region(snippets, name, body, lines)
    decreases |lines|
  {
    if lines == [] {
      RegionUnclosed(snippets, name, body);
    } else if lines[0].tag.Some? {
      RegionClosed(snippets, name, Replacement(snippets, name, body), lines[0], Rewrite(snippets, lines[1..]));
      RewriteTwice(snippets, lines[1..]);
    } else {
      RegionTwice(snippets, name, body + [lines[0]], lines[1..]);
    }
  }

  /** The lines outside the regions that are closed, tag lines included. */
  function Outside(lines: seq<Line>): seq<Line>
    decreases |lines|
  {
    if lines == [] then []
    else [lines[0]] + if lines[0].tag.Some? then OutsideIn([], lines[1..]) else Outside(lines[1..])
  }

  function OutsideIn(body: seq<Line>, lines: seq<Line>): seq<Line>
    decreases |lines|
  {
    if lines == [] then body
    else if lines[0].tag.Some? then [lines[0]] + Outside(lines[1..])
    else OutsideIn(body + [lines[0]], lines[1..])
  }

  lemma {:induction false} OutsidePlain(body: seq<Line>, plain: seq<Line>, rest: seq<Line>)
    requires Plain(plain)
    ensures OutsideIn(body, plain + rest) == OutsideIn(body + plain, rest)
    decreases |plain|
  {
    if plain == [] {
      assert plain + rest == rest && body + plain == body;
    } else {
      OutsidePlain(body + [plain[0]], plain[1..], rest);
      FirstOfConcat(plain, rest);
      Uncons(plain);
      Associative(body, [plain[0]], plain[1..]);
    }
  }

  /** Scanning the rewritten lines again finds the same lines outside the regions, if no snippet holds a tag line. */
  lemma {:induction false} OutsideStays(snippets: Snippets, lines: seq<Line>)
    requires AllPlain(snippets)
    ensures Outside(Rewrite(snippets, lines)) == Outside(lines)
    decreases |lines|
  {
    if lines != [] {
      var rest := lines[1..];
      if lines[0].tag.Some? {
        OutsideInStays(snippets, lines[0].tag.value, [], rest);
        FirstOfConcat([lines[0]], Region(snippets, lines[0].tag.value, [], rest));
      } else {
        OutsideStays(snippets, rest);
        FirstOfConcat([lines[0]], Rewrite(snippets, rest));
      }
    }
  }

  lemma {:induction false} OutsideInStays(snippets: Snippets, name: string, body: seq<Line>, lines: seq<Line>)
    requires AllPlain(snippets) && Plain(body)
    ensures OutsideIn([], Region(snippets, name, body, lines)) == OutsideIn(body, lines)
    decreases |lines|
  {
    if lines == [] {
      OutsidePlain([], body, []);
      assert body + [] == body && [] + body == body;
    } else if lines[0].tag.Some? {
      var items, end := Replacement(snippets, name, body), Rewrite(snippets, lines[1..]);
      OutsidePlain([], items, [lines[0]] + end);
      FirstOfConcat([lines[0]], end);
      OutsideStays(snippets, lines[1..]);
    } else {
      OutsideInStays(snippets, name, body + [lines[0]], lines[1..]);
    }
  }

  /** The lines of a file, cut into those that stay and the bodies of the closed regions, each with its name. */
  datatype Piece = Fixed(line: Line) | Body(name: string, lines: seq<Line>)

  function PiecesOf(lines: seq<Line>): seq<Piece>
    decreases |lines|
  {
    if lines == [] then []
    else
      [Fixed(lines[0])]
      + if lines[0].tag.Some? then PiecesIn(lines[0].tag.value, [], lines[1..]) else PiecesOf(lines[1..])
  }

  function PiecesIn(name: string, body: seq<Line>, lines: seq<Line>): seq<Piece>
    decreases |lines|
  {
    if lines == [] then AllFixed(body)
    else if lines[0].tag.Some? then [Body(name, body), Fixed(lines[0])] + PiecesOf(lines[1..])
    else PiecesIn(name, body + [lines[0]], lines[1..])
  }

  function AllFixed(lines: seq<Line>): seq<Piece> {
    if lines == [] then [] else [Fixed(lines[0])] + AllFixed(lines[1..])
  }

  /** The pieces put together again, with something in the place of every body. */
  function Put(pieces: seq<Piece>, place: (string, seq<Line>) -> seq<Line>): seq<Line> {
    if pieces == [] then []
    else
      (match pieces[0]
       case Fixed(line) => [line]
       case Body(name, lines) => place(name, lines)) + Put(pieces[1..], place)
  }

  lemma PutFirst(piece: Piece, pieces: seq<Piece>, place: (string, seq<Line>) -> seq<Line>)
    ensures Put([piece] + pieces, place) ==
            (match piece
             case Fixed(line) => [line]
             case Body(name, lines) => place(name, lines)) + Put(pieces, place)
  {
    assert ([piece] + pieces)[1..] == pieces;
  }

  lemma {:induction false} PutFixed(lines: seq<Line>, place: (string, seq<Line>) -> seq<Line>)
    ensures Put(AllFixed(lines), place) == lines
    decreases |lines|
  {
    if lines != [] {
      PutFixed(lines[1..], place);
      PutFirst(Fixed(lines[0]), AllFixed(lines[1..]), place);
      Uncons(lines);
    }
  }

  /**
   * Whatever the snippets hold: the rewriting leaves the fixed lines where they are between the bodies, each in its
   * place and order, and puts a replacement in the place of every body; put back unchanged, the pieces are the file,
   * and left out, the bodies leave the lines outside the regions.
   */
  lemma {:induction false} RewritesPieces(snippets: Snippets, lines: seq<Line>)
    ensures Put(PiecesOf(lines), (name, body) => body) == lines
    ensures Put(PiecesOf(lines), (name, body) => Replacement(snippets, name, body)) == Rewrite(snippets, lines)
    ensures Put(PiecesOf(lines), (name, body) => []) == Outside(lines)
    decreases |lines|
  {
    if lines != [] {
      var rest := lines[1..];
      var pieces := if lines[0].tag.Some? then PiecesIn(lines[0].tag.value, [], rest) else PiecesOf(rest);
      Uncons(lines);
      PutFirst(Fixed(lines[0]), pieces, (name, body) => body);
      PutFirst(Fixed(lines[0]), pieces, (name, body) => Replacement(snippets, name, body));
      PutFirst(Fixed(lines[0]), pieces, (name, body) => []);
      if lines[0].tag.Some? {
        RegionPieces(snippets, lines[0].tag.value, [], rest);
        assert [] + rest == rest;
      } else {
        RewritesPieces(snippets, rest);
      }
    }
  }

  lemma {:induction false} RegionPieces(snippets: Snippets, name: string, body: seq<Line>, lines: seq<Line>)
    ensures Put(PiecesIn(name, body, lines), (n, b) => b) == body + lines
    ensures Put(PiecesIn(name, body, lines), (n, b) => Replacement(snippets, n, b)) ==
            Region(snippets, name, body, lines)
    ensures Put(PiecesIn(name, body, lines), (n, b) => []) == OutsideIn(body, lines)
    decreases |lines|
  {
    if lines == [] {
      PutFixed(body, (n, b) => b);
      PutFixed(body, (n, b) => Replacement(snippets, n, b));
      PutFixed(body, (n, b) => []);
    } else if lines[0].tag.Some? {
      RewritesPieces(snippets, lines[1..]);
      Uncons(lines);
      PutRegion(name, body, lines[0], PiecesOf(lines[1..]), (n, b) => b);
      PutRegion(name, body, lines[0], PiecesOf(lines[1..]), (n, b) => Replacement(snippets, n, b));
      PutRegion(name, body, lines[0], PiecesOf(lines[1..]), (n, b) => []);
    } else {
      RegionPieces(snippets, name, body + [lines[0]], lines[1..]);
      Uncons(lines);
      Associative(body, [lines[0]], lines[1..]);
    }
  }

  lemma PutRegion(
    name: string, body: seq<Line>, close: Line, pieces: seq<Piece>, place: (string, seq<Line>) -> seq<Line>)
    ensures Put([Body(name, body), Fixed(close)] + pieces, place) == place(name, body) + ([close] + Put(pieces, place))
  {
    PutFirst(Fixed(close), pieces, place);
    PutFirst(Body(name, body), [Fixed(close)] + pieces, place);
    assert [Body(name, body), Fixed(close)] + pieces == [Body(name, body)] + ([Fixed(close)] + pieces);
  }

  /** The regions found afterwards are the ones found before: as many, with the same names. */
  function Names(tags: seq<Tag>): seq<string> {
    if tags == [] then [] else [tags[0].name] + Names(tags[1..])
  }

  lemma {:induction false} TagsPlain(plain: seq<Line>, rest: seq<Line>, n: nat, name: string, start: nat)
    requires Plain(plain)
    ensures TagsIn(plain + rest, n, name, start) == TagsIn(rest, n + |plain|, name, start)
    decreases |plain|
  {
    if plain == [] {
      assert plain + rest == rest;
    } else {
      TagsPlain(plain[1..], rest, n + 1, name, start);
      FirstOfConcat(plain, rest);
    }
  }

  lemma NamesOfMore(t: Tag, tags: seq<Tag>)
    ensures Names([t] + tags) == [t.name] + Names(tags)
  {
  }

  /** A region that is closed after a plain body. */
  lemma TagsClosed(body: seq<Line>, close: Line, rest: seq<Line>, n: nat, name: string, start: nat)
    requires Plain(body) && close.tag.Some?
    ensures Names(TagsIn(body + ([close] + rest), n, name, start)) == [name] + Names(TagsOf(rest, n + |body| + 1))
  {
    TagsPlain(body, [close] + rest, n, name, start);
    FirstOfConcat([close], rest);
    assert [close][1..] + rest == rest;
    NamesOfMore(Tag(name, start, n + |body|), TagsOf(rest, n + |body| + 1));
  }

  lemma {:induction false} TagsStay(snippets: Snippets, lines: seq<Line>, n: nat, m: nat)
    requires AllPlain(snippets)
    ensures Names(TagsOf(Rewrite(snippets, lines), m)) == Names(TagsOf(lines, n))
    decreases |lines|
  {
    if lines != [] {
      var rest := lines[1..];
      if lines[0].tag.Some? {
        TagsInStay(snippets, lines[0].tag.value, [], rest, n + 1, n, m + 1, m);
        FirstOfConcat([lines[0]], Region(snippets, lines[0].tag.value, [], rest));
      } else {
        TagsStay(snippets, rest, n + 1, m + 1);
        FirstOfConcat([lines[0]], Rewrite(snippets, rest));
      }
    }
  }

  lemma {:induction false} TagsInStay(snippets: Snippets, name: string, body: seq<Line>, lines: seq<Line>,
    n: nat, start: nat, m: nat, begin: nat)
    requires AllPlain(snippets) && Plain(body)
    ensures Names(TagsIn(Region(snippets, name, body, lines), m, name, begin)) == Names(TagsIn(lines, n, name, start))
    decreases |lines|
  {
    if lines == [] {
      TagsPlain(body, [], m, name, begin);
      assert body + [] == body;
    } else if lines[0].tag.Some? {
      var items, end := Replacement(snippets, name, body), Rewrite(snippets, lines[1..]);
      TagsClosed(items, lines[0], end, m, name, begin);
      TagsStay(snippets, lines[1..], n + 1, m + |items| + 1);
      NamesOfMore(Tag(name, start, n), TagsOf(lines[1..], n + 1));
    } else {
      TagsInStay(snippets, name, body + [lines[0]], lines[1..], n + 1, start, m, begin);
    }
  }
}
