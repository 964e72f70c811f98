/** The SHA256SUMS file: printing a table of digests and reading it back. */
module Checksums {

  /** Where `splitlines` breaks a text. */
  predicate LineBreak(c: char) {
    var n := c as int;
    10 <= n <= 13 || 28 <= n <= 30 || n == 0x85 || n == 0x2028 || n == 0x2029
  }

  /** What `strip` removes. */
  predicate Space(c: char) {
    var n := c as int;
    || 9 <= n <= 13 || 28 <= n <= 32 || n == 0x85 || n == 0xa0 || n == 0x1680 || 0x2000 <= n <= 0x200a
    || n == 0x2028 || n == 0x2029 || n == 0x202f || n == 0x205f || n == 0x3000
  }

  predicate Hexadecimal(c: char) {
    '0' <= c <= '9' || 'a' <= c <= 'f'
  }

  /** The first index at or after `from` that a line ends at. */
  function LineEnd(text: string, from: nat): (n: nat)
    requires from <= |text|
    ensures from <= n <= |text|
    ensures forall i | from <= i < n :: !LineBreak(text[i])
    ensures n < |text| ==> LineBreak(text[n])
    decreases |text| - from
  {
    if from == |text| || LineBreak(text[from]) then from else LineEnd(text, from + 1)
  }

  /** `splitlines`: a carriage return with its line feed is one break, and no empty
      line follows a final break. */
  function SplitLines(text: string): seq<string>
    decreases |text|
  {
    if text == "" then []
    else
      var n := LineEnd(text, 0);
      if n == |text| then [text]
      else
        var width := if text[n] == '\r' && n + 1 < |text| && text[n + 1] == '\n' then 2 else 1;
        [text[..n]] + SplitLines(text[n + width..])
  }

  function TrimLeft(s: string): string {
    if s != "" && Space(s[0]) then TrimLeft(s[1..]) else s
  }

  function TrimRight(s: string): string {
    if s != "" && Space(s[|s| - 1]) then TrimRight(s[..|s| - 1]) else s
  }

  /** `strip`. */
  function Strip(s: string): string {
    TrimRight(TrimLeft(s))
  }

  /** Where the first double space is, or the length. */
  function Gap(s: string, from: nat): (n: nat)
    requires from <= |s|
    ensures from <= n <= |s|
    decreases |s| - from
  {
    if from == |s| then from
    else if from + 1 < |s| && s[from] == ' ' && s[from + 1] == ' ' then from
    else Gap(s, from + 1)
  }

  // ---- Printing ----

  /** `order` lists the names; the source lists them sorted. */
  ghost predicate Lists(order: seq<string>, digests: map<string, string>) {
    && (forall i | 0 <= i < |order| :: order[i] in digests)
    && (forall name | name in digests :: name in order)
  }

  function Entry(name: string, digest: string): string {
    digest + "  " + name
  }

  function JoinLines(lines: seq<string>): string {
    if lines == [] then "" else lines[0] + ("\n" + JoinLines(lines[1..]))
  }

  function Entries(order: seq<string>, digests: map<string, string>): (lines: seq<string>)
    requires forall i | 0 <= i < |order| :: order[i] in digests
    ensures |lines| == |order|
  {
    if order == [] then []
    else
      var last := order[|order| - 1];
      Entries(order[..|order| - 1], digests) + [Entry(last, digests[last])]
  }

  /** `render_sha256sums`; `header` is the recipe it prints above the entries. */
  method Render(header: seq<string>, order: seq<string>, digests: map<string, string>) returns (text: string)
    requires Lists(order, digests)
    ensures text == JoinLines(header + Entries(order, digests))
  {
    var lines := header;
    for i := 0 to |order|
      invariant lines == header + Entries(order[..i], digests)
    {
      assert order[..i + 1][..i] == order[..i];
      lines := lines + [Entry(order[i], digests[order[i]])];
    }
    assert order[..|order|] == order;
    text := JoinLines(lines);
  }

  /** The text printed for one entry more is the text so far and one line: the digest,
      two spaces, the name, and a line feed. */
  lemma OneEntryPrinted(header: seq<string>, order: seq<string>, digests: map<string, string>, last: string)
    requires last in digests && forall i | 0 <= i < |order| :: order[i] in digests
    ensures JoinLines(header + Entries(order + [last], digests)) ==
      JoinLines(header + Entries(order, digests)) + digests[last] + "  " + last + "\n"
  {
    assert (order + [last])[..|order|] == order;
    var lines := header + Entries(order, digests);
    assert header + Entries(order + [last], digests) == lines + [Entry(last, digests[last])];
    JoinOneMore(lines, Entry(last, digests[last]));
  }

  lemma Regroup(a: string, b: string, c: string)
    ensures a + ("\n" + (b + c + "\n")) == a + ("\n" + b) + c + "\n"
  {
  }

  lemma {:induction false} JoinOneMore(lines: seq<string>, line: string)
    ensures JoinLines(lines + [line]) == JoinLines(lines) + line + "\n"
  {
    if lines == [] {
      assert [line][1..] == [] && [] + [line] == [line];
      assert JoinLines([line]) == line + ("\n" + "");
    } else {
      assert (lines + [line])[1..] == lines[1..] + [line];
      JoinOneMore(lines[1..], line);
      Regroup(lines[0], JoinLines(lines[1..]), line);
    }
  }

  // ---- Reading ----

  /** What one line adds to the table. */
  function ReadLine(table: map<string, string>, raw: string): map<string, string> {
    var line := Strip(raw);
    if line == "" || line[0] == '#' then table
    else
      var n := Gap(line, 0);
      if n + 2 >= |line| then table else table[Strip(line[n + 2..]) := Strip(line[..n])]
  }

  function ReadLines(lines: seq<string>): map<string, string> {
    if lines == [] then map[] else ReadLine(ReadLines(lines[..|lines| - 1]), lines[|lines| - 1])
  }

  lemma OneLineMore(lines: seq<string>, i: nat)
    requires i < |lines|
    ensures ReadLines(lines[..i + 1]) == ReadLine(ReadLines(lines[..i]), lines[i])
  {
    assert lines[..i + 1][..i] == lines[..i];
  }

  /** `parse_sha256sums`. */
  method Parse(text: string) returns (table: map<string, string>)
    ensures table == ReadLines(SplitLines(text))
  {
    var lines := SplitLines(text);
    table := map[];
    for i := 0 to |lines|
      invariant table == ReadLines(lines[..i])
    {
      OneLineMore(lines, i);
      var line := Strip(lines[i]);
      if line != "" && line[0] != '#' {
        var n := Gap(line, 0);
        if n + 2 < |line| {
          table := table[Strip(line[n + 2..]) := Strip(line[..n])];
        }
      }
    }
    assert lines[..|lines|] == lines;
  }

  // ---- Round trip ----

  predicate OneLine(s: string) {
    forall i | 0 <= i < |s| :: !LineBreak(s[i])
  }

  predicate GoodName(name: string) {
    name != "" && OneLine(name) && !Space(name[0]) && !Space(name[|name| - 1])
  }

  predicate GoodDigest(digest: string) {
    digest != "" && forall i | 0 <= i < |digest| :: Hexadecimal(digest[i])
  }

  /** Text whose edges are not space is left alone by `strip`; in particular every
      good name is edge-trimmed, and every edge-trimmed name is good. */
  lemma StripKeeps(s: string)
    requires s != ""
    ensures Strip(s) == s <==> !Space(s[0]) && !Space(s[|s| - 1])
  {
    TrimmedEdges(s);
    if !Space(s[0]) { assert TrimLeft(s) == s; }
  }

  lemma TrimmedEdges(s: string)
    ensures |TrimLeft(s)| <= |s| && (s != "" && Space(s[0]) ==> |TrimLeft(s)| < |s|)
    ensures |TrimRight(s)| <= |s| && (s != "" && Space(s[|s| - 1]) ==> |TrimRight(s)| < |s|)
    ensures |Strip(s)| <= |TrimLeft(s)|
  {
    TrimRightShrinks(s);
    TrimLeftShrinks(s);
    TrimRightShrinks(TrimLeft(s));
  }

  lemma TrimLeftShrinks(s: string)
    ensures |TrimLeft(s)| <= |s| && (s != "" && Space(s[0]) ==> |TrimLeft(s)| < |s|)
  {
  }

  lemma TrimRightShrinks(s: string)
    ensures |TrimRight(s)| <= |s| && (s != "" && Space(s[|s| - 1]) ==> |TrimRight(s)| < |s|)
  {
  }

  lemma GapAfterDigest(digest: string, name: string, from: nat)
    requires GoodDigest(digest) && from <= |digest|
    ensures Gap(Entry(name, digest), from) == |digest|
    decreases |digest| - from
  {
    var line := Entry(name, digest);
    if from < |digest| {
      assert line[from] == digest[from];
      GapAfterDigest(digest, name, from + 1);
    } else {
      assert line[from] == ' ' && line[from + 1] == ' ';
    }
  }

  /** Reading one printed entry puts back exactly that entry. */
  lemma EntryReads(table: map<string, string>, name: string, digest: string)
    requires GoodName(name) && GoodDigest(digest)
    ensures ReadLine(table, Entry(name, digest)) == table[name := digest]
    ensures OneLine(Entry(name, digest))
  {
    var line := Entry(name, digest);
    assert line[0] == digest[0] && line[|line| - 1] == name[|name| - 1];
    StripKeeps(line);
    StripKeeps(name);
    StripKeeps(digest);
    GapAfterDigest(digest, name, 0);
    assert line[|digest| + 2..] == name && line[..|digest|] == digest;
    forall i | 0 <= i < |line| ensures !LineBreak(line[i]) {
      if i >= |digest| + 2 { assert line[i] == name[i - |digest| - 2]; }
      else if i < |digest| { assert line[i] == digest[i]; }
    }
  }

  /** A line with no double space in it adds nothing. */
  lemma NoGapSkipped(table: map<string, string>, raw: string)
    requires var line := Strip(raw); forall i | 0 <= i < |line| - 1 :: line[i] != ' ' || line[i + 1] != ' '
    ensures ReadLine(table, raw) == table
  {
    NoGapFound(Strip(raw), 0);
  }

  lemma NoGapFound(line: string, from: nat)
    requires from <= |line| && forall i | 0 <= i < |line| - 1 :: line[i] != ' ' || line[i + 1] != ' '
    ensures Gap(line, from) == |line|
    decreases |line| - from
  {
    if from < |line| { NoGapFound(line, from + 1); }
  }

  lemma LineEndsAtBreak(line: string, rest: string, from: nat)
    requires OneLine(line) && from <= |line|
    ensures LineEnd(line + ("\n" + rest), from) == |line|
    decreases |line| - from
  {
    var text := line + ("\n" + rest);
    if from < |line| {
      assert text[from] == line[from];
      LineEndsAtBreak(line, rest, from + 1);
    } else {
      assert text[from] == '\n';
    }
  }

  /** Splitting a joined text gives the lines back. */
  lemma {:induction false} SplitJoin(lines: seq<string>)
    requires forall i | 0 <= i < |lines| :: OneLine(lines[i])
    ensures SplitLines(JoinLines(lines)) == lines
  {
    if lines != [] {
      var rest := JoinLines(lines[1..]);
      var text := lines[0] + ("\n" + rest);
      LineEndsAtBreak(lines[0], rest, 0);
      SplitJoin(lines[1..]);
      assert text[|lines[0]|] == '\n' && text[|lines[0]| + 1..] == rest && text[..|lines[0]|] == lines[0];
      assert lines == [lines[0]] + lines[1..];
    }
  }

  /** The kind of line the header consists of: empty, or starting with a number sign
      and not ending in space. */
  predicate Comment(line: string) {
    OneLine(line) && (line == "" || (line[0] == '#' && !Space(line[|line| - 1])))
  }

  lemma CommentSkipped(table: map<string, string>, line: string)
    requires Comment(line)
    ensures ReadLine(table, line) == table
  {
    if line != "" { StripKeeps(line); }
  }

  lemma {:induction false} CommentsRead(lines: seq<string>)
    requires forall i | 0 <= i < |lines| :: Comment(lines[i])
    ensures ReadLines(lines) == map[]
  {
    if lines != [] {
      CommentsRead(lines[..|lines| - 1]);
      CommentSkipped(map[], lines[|lines| - 1]);
    }
  }

  lemma OneEntryMore(lines: seq<string>, name: string, digest: string)
    requires GoodName(name) && GoodDigest(digest)
    ensures ReadLines(lines + [Entry(name, digest)]) == ReadLines(lines)[name := digest]
  {
    var more := lines + [Entry(name, digest)];
    assert more[..|more| - 1] == lines && more[|more| - 1] == Entry(name, digest);
    EntryReads(ReadLines(lines), name, digest);
  }

  ghost predicate Good(digests: map<string, string>) {
    forall name | name in digests :: GoodName(name) && GoodDigest(digests[name])
  }

  /** The part of the table that `order` names. */
  function Picked(order: seq<string>, digests: map<string, string>): map<string, string>
    requires forall i | 0 <= i < |order| :: order[i] in digests
  {
    if order == [] then map[]
    else
      var last := order[|order| - 1];
      Picked(order[..|order| - 1], digests)[last := digests[last]]
  }

  lemma {:induction false} PickedReads(order: seq<string>, digests: map<string, string>)
    requires forall i | 0 <= i < |order| :: order[i] in digests
    ensures forall name :: name in Picked(order, digests) <==> name in order
    ensures forall name | name in order :: Picked(order, digests)[name] == digests[name]
  {
    if order != [] {
      PickedReads(order[..|order| - 1], digests);
      assert order == order[..|order| - 1] + [order[|order| - 1]];
    }
  }

  lemma PickedIsWhole(order: seq<string>, digests: map<string, string>)
    requires Lists(order, digests)
    ensures Picked(order, digests) == digests
  {
    PickedReads(order, digests);
  }

  lemma {:induction false} EntriesRead(header: seq<string>, order: seq<string>, digests: map<string, string>)
    requires ReadLines(header) == map[] && Good(digests)
    requires forall i | 0 <= i < |order| :: order[i] in digests
    ensures ReadLines(header + Entries(order, digests)) == Picked(order, digests)
  {
    if order == [] {
      assert header + Entries(order, digests) == header;
    } else {
      var before, last := order[..|order| - 1], order[|order| - 1];
      EntriesRead(header, before, digests);
      assert header + Entries(order, digests) == (header + Entries(before, digests)) + [Entry(last, digests[last])];
      OneEntryMore(header + Entries(before, digests), last, digests[last]);
    }
  }

  lemma {:induction false} EntriesAreLines(order: seq<string>, digests: map<string, string>)
    requires Good(digests) && forall k | 0 <= k < |order| :: order[k] in digests
    ensures forall i | 0 <= i < |order| :: OneLine(Entries(order, digests)[i])
  {
    if order != [] {
      var last := order[|order| - 1];
      EntriesAreLines(order[..|order| - 1], digests);
      EntryReads(map[], last, digests[last]);
    }
  }

  lemma JoinedReads(header: seq<string>, order: seq<string>, digests: map<string, string>)
    requires forall i | 0 <= i < |header| :: Comment(header[i])
    requires Good(digests) && forall i | 0 <= i < |order| :: order[i] in digests
    ensures SplitLines(JoinLines(header + Entries(order, digests))) == header + Entries(order, digests)
  {
    EntriesAreLines(order, digests);
    SplitJoin(header + Entries(order, digests));
  }

  /** Under any header of comments, reading what was printed gives back the same
      table, for every table of edge-trimmed one-line names and hexadecimal digests,
      in whatever order the names were printed. */
  lemma RoundTrip(header: seq<string>, order: seq<string>, digests: map<string, string>)
    requires forall i | 0 <= i < |header| :: Comment(header[i])
    requires Lists(order, digests) && Good(digests)
    ensures ReadLines(SplitLines(JoinLines(header + Entries(order, digests)))) == digests
  {
    CommentsRead(header);
    EntriesRead(header, order, digests);
    PickedIsWhole(order, digests);
    JoinedReads(header, order, digests);
  }
}
