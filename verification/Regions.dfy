/** The two append-only regions of agent_pool/merge_resolution.py: how a line opens an
    entry, and how an appended residue splits into whole keyed entries. */
module Regions {
  import opened Common

  type Lines = seq<string>

  /** What a line is to a region: it opens the entry with a key, continues the entry above
      it, or is not part of any entry. */
  datatype LineKind = Opener(key: string) | Body | Alien

  type Region = string -> LineKind

  datatype Entry = Entry(key: string, lines: Lines)

  // ----- Line recognition -----

  /** Index of the first non-space character at or after i. */
  function SkipSpaces(s: string, i: nat): (j: nat)
    requires i <= |s|
    ensures i <= j <= |s| && (j < |s| ==> !IsSpace(s[j]))
    ensures forall k | i <= k < j :: IsSpace(s[k])
    decreases |s| - i
  {
    if i < |s| && IsSpace(s[i]) then SkipSpaces(s, i + 1) else i
  }

  /** Index of the first '`' or '|' at or after i. */
  function CellEnd(s: string, i: nat): (j: nat)
    requires i <= |s|
    ensures i <= j <= |s| && forall k | i <= k < j :: s[k] != '`' && s[k] != '|'
    decreases |s| - i
  {
    if i < |s| && s[i] != '`' && s[i] != '|' then CellEnd(s, i + 1) else i
  }

  /** `_keyed_row`: a table row whose first cell is exactly one backticked name. */
  function KeyedRow(line: string): Option<string> {
    if line == [] || line[0] != '|' then None else
      var open := SkipSpaces(line, 1);
      if open == |line| || line[open] != '`' then None else
        var close := CellEnd(line, open + 1);
        if close == open + 1 || close == |line| || line[close] != '`' then None else
          var bar := SkipSpaces(line, close + 1);
          if bar == |line| || line[bar] != '|' then None else
            var rest := Strip(line[bar + 1..]);
            if rest == [] || rest[|rest| - 1] != '|' then None
            else Some(Strip(line[open + 1..close]))
  }

  /** Number of leading '#' characters. */
  function Hashes(s: string): (n: nat)
    ensures n <= |s|
  {
    if s != [] && s[0] == '#' then 1 + Hashes(s[1..]) else 0
  }

  /** `_HEADING`: one to six hashes and a space. */
  predicate IsHeading(line: string) {
    var n := Hashes(line);
    1 <= n <= 6 && n < |line| && IsSpace(line[n])
  }

  /** `_LANDED_HEADING`: two to six hashes, then the word Landed and some text. */
  predicate IsLandedHeading(line: string) {
    var n := Hashes(line);
    2 <= n <= 6 && n < |line| && IsSpace(line[n]) &&
    var w := SkipSpaces(line, n);
    "Landed" <= line[w..] &&
    w + 6 < |line| && IsSpace(line[w + 6]) && SkipSpaces(line, w + 6) < |line|
  }

  // ----- The shapes of keyed lines -----

  lemma SkipsTo(s: string, i: nat, j: nat)
    requires i <= j < |s| && (forall k | i <= k < j :: IsSpace(s[k])) && !IsSpace(s[j])
    ensures SkipSpaces(s, i) == j
  {
    hide IsSpace;
  }

  lemma CellEndsAt(s: string, i: nat, j: nat)
    requires i <= j < |s| && (forall k | i <= k < j :: s[k] != '`' && s[k] != '|') && (s[j] == '`' || s[j] == '|')
    ensures CellEnd(s, i) == j
    decreases j - i
  {
    if i < j {
      CellEndsAt(s, i + 1, j);
    }
  }

  /** A bar, spaces, a nonempty backticked name without backtick or bar, spaces, a bar, and more
      that ends in a bar but for trailing spaces. */
  predicate RowShape(line: string, before: string, name: string, after: string, rest: string) {
    && line == "|" + before + "`" + name + "`" + after + "|" + rest
    && Blank(before) && Blank(after)
    && name != [] && (forall c | c in name :: c != '`' && c != '|')
    && Strip(rest) != [] && Strip(rest)[|Strip(rest)| - 1] == '|'
  }

  /** Where the parts of a row lie. */
  lemma RowParts(line: string, before: string, name: string, after: string, rest: string)
    requires line == "|" + before + "`" + name + "`" + after + "|" + rest
    ensures var open := 1 + |before|;
            var close := open + 1 + |name|;
            var bar := close + 1 + |after|;
            && bar < |line| && line[0] == '|' && line[open] == '`' && line[close] == '`' && line[bar] == '|'
            && line[1..open] == before && line[open + 1..close] == name && line[close + 1..bar] == after
            && line[bar + 1..] == rest
  {
  }

  lemma SliceBlank(line: string, i: nat, j: nat)
    requires i <= j <= |line|
    ensures Blank(line[i..j]) <==> forall k | i <= k < j :: IsSpace(line[k])
  {
    hide IsSpace;
    if Blank(line[i..j]) {
      assert forall k | i <= k < j :: line[k] in line[i..j];
    }
  }

  lemma RowShapeIsKeyed(line: string, before: string, name: string, after: string, rest: string)
    requires RowShape(line, before, name, after, rest)
    ensures KeyedRow(line) == Some(Strip(name))
  {
    hide IsSpace, SkipSpaces, CellEnd, Strip, Blank;
    var open := 1 + |before|;
    var close := open + 1 + |name|;
    var bar := close + 1 + |after|;
    RowParts(line, before, name, after, rest);
    TicksAndBars();
    SliceBlank(line, 1, open);
    SkipsTo(line, 1, open);
    forall k | open + 1 <= k < close ensures line[k] != '`' && line[k] != '|' {
      assert line[k] in line[open + 1..close];
    }
    CellEndsAt(line, open + 1, close);
    SliceBlank(line, close + 1, bar);
    SkipsTo(line, close + 1, bar);
  }

  lemma CutAt(s: string, i: nat)
    requires i < |s|
    ensures s == s[..i] + [s[i]] + s[i + 1..]
  {
  }

  lemma RowCut(line: string, open: nat, close: nat, bar: nat)
    requires 1 <= open < close < bar < |line|
    requires line[0] == '|' && line[open] == '`' && line[close] == '`' && line[bar] == '|'
    ensures line == "|" + line[1..open] + "`" + line[open + 1..close] + "`" + line[close + 1..bar] + "|" + line[bar + 1..]
  {
    CutAt(line, bar);
    CutAt(line[..bar], close);
    CutAt(line[..close], open);
    CutAt(line[..open], 0);
    assert line[..bar][..close] == line[..close] && line[..close][..open] == line[..open];
  }

  lemma KeyedRowHasShape(line: string) returns (before: string, name: string, after: string, rest: string)
    requires KeyedRow(line).Some?
    ensures RowShape(line, before, name, after, rest) && KeyedRow(line) == Some(Strip(name))
  {
    hide IsSpace, SkipSpaces, CellEnd, Strip, Blank;
    var open := SkipSpaces(line, 1);
    var close := CellEnd(line, open + 1);
    var bar := SkipSpaces(line, close + 1);
    before, name, after, rest := line[1..open], line[open + 1..close], line[close + 1..bar], line[bar + 1..];
    SliceBlank(line, 1, open);
    SliceBlank(line, close + 1, bar);
    RowCut(line, open, close, bar);
    forall c | c in name ensures c != '`' && c != '|' {
      var k :| 0 <= k < |name| && name[k] == c;
      assert c == line[open + 1 + k];
    }
  }

  lemma TicksAndBars()
    ensures !IsSpace('`') && !IsSpace('|')
  {
  }

  /** A line is a keyed row exactly when it has that shape, and its key is the stripped name. */
  lemma KeyedRowExactly(line: string, k: string)
    ensures KeyedRow(line) == Some(k)
       <==> exists before, name, after, rest :: RowShape(line, before, name, after, rest) && k == Strip(name)
  {
    hide KeyedRow, RowShape, Strip;
    if KeyedRow(line) == Some(k) {
      var before, name, after, rest := KeyedRowHasShape(line);
    }
    if before, name, after, rest :| RowShape(line, before, name, after, rest) && k == Strip(name) {
      RowShapeIsKeyed(line, before, name, after, rest);
    }
  }

  predicate AllHashes(s: string) {
    forall c | c in s :: c == '#'
  }

  lemma {:induction false} HashesCount(s: string, n: nat)
    requires n < |s| && AllHashes(s[..n]) && s[n] != '#'
    ensures Hashes(s) == n
    decreases n
  {
    if n > 0 {
      assert s[..n][0] in s[..n];
      assert s[1..][..n - 1] == s[..n][1..] && forall c | c in s[..n][1..] :: c in s[..n];
      HashesCount(s[1..], n - 1);
    }
  }

  lemma {:induction false} HashesLead(s: string)
    ensures AllHashes(s[..Hashes(s)]) && (Hashes(s) < |s| ==> s[Hashes(s)] != '#')
  {
    if s != [] && s[0] == '#' {
      HashesLead(s[1..]);
      assert s[..Hashes(s)] == [s[0]] + s[1..][..Hashes(s[1..])];
    }
  }

  /** One to six hashes and a space. */
  lemma HeadingExactly(line: string)
    ensures IsHeading(line) <==> exists n: nat :: 1 <= n <= 6 && n < |line| && AllHashes(line[..n]) && IsSpace(line[n])
  {
    HashesLead(line);
    if n: nat :| 1 <= n <= 6 && n < |line| && AllHashes(line[..n]) && IsSpace(line[n]) {
      HashesCount(line, n);
    }
  }

  /** Two to six hashes, spaces, the word Landed, spaces, and some text. */
  predicate LandedShape(line: string, hashes: string, before: string, after: string, text: string) {
    && line == hashes + before + "Landed" + after + text
    && 2 <= |hashes| <= 6 && AllHashes(hashes)
    && before != [] && Blank(before) && after != [] && Blank(after)
    && text != [] && !IsSpace(text[0])
  }

  lemma LandedParts(line: string, hashes: string, before: string, after: string, text: string)
    requires line == hashes + before + "Landed" + after + text && before != [] && text != []
    ensures var n := |hashes|;
            var w := n + |before|;
            var t := w + 6 + |after|;
            && t < |line| && line[..n] == hashes && line[n..w] == before && line[w + 6..t] == after && line[t] == text[0]
            && "Landed" <= line[w..] && line[w] == 'L'
  {
    var w := |hashes| + |before|;
    assert line[w..] == "Landed" + (after + text);
  }

  lemma LandedShapeIsHeading(line: string, hashes: string, before: string, after: string, text: string)
    requires LandedShape(line, hashes, before, after, text)
    ensures IsLandedHeading(line)
  {
    hide SkipSpaces, Hashes, Blank;
    var n := |hashes|;
    var w := n + |before|;
    var t := w + 6 + |after|;
    LandedParts(line, hashes, before, after, text);
    SliceBlank(line, n, w);
    SliceBlank(line, w + 6, t);
    HashesCount(line, n);
    SkipsTo(line, n, w);
    SkipsTo(line, w + 6, t);
  }

  lemma LandedHeadingHasShape(line: string) returns (hashes: string, before: string, after: string, text: string)
    requires IsLandedHeading(line)
    ensures LandedShape(line, hashes, before, after, text)
  {
    hide SkipSpaces, Hashes;
    var n := Hashes(line);
    HashesLead(line);
    var w := SkipSpaces(line, n);
    assert w > n;
    var t := SkipSpaces(line, w + 6);
    hashes, before, after, text := line[..n], line[n..w], line[w + 6..t], line[t..];
    assert line[w..w + 6] == "Landed" by {
      assert line[w..][..6] == line[w..w + 6];
    }
    assert line == hashes + before + line[w..w + 6] + after + text;
  }

  /** A line opens a Landed block exactly when it has that shape, and the stripped line is its
      key. */
  lemma LandedKeyExactly(line: string, k: string)
    ensures LandedKind(line) == Opener(k)
       <==> k == Strip(line) && exists hashes, before, after, text :: LandedShape(line, hashes, before, after, text)
  {
    hide IsLandedHeading, LandedShape, Strip, IsHeading;
    if IsLandedHeading(line) {
      var hashes, before, after, text := LandedHeadingHasShape(line);
    }
    if hashes, before, after, text :| LandedShape(line, hashes, before, after, text) {
      LandedShapeIsHeading(line, hashes, before, after, text);
    }
  }

  function RowKind(line: string): LineKind {
    match KeyedRow(line)
    case Some(key) => Opener(key)
    case None => Alien
  }

  function LandedKind(line: string): LineKind {
    if IsLandedHeading(line) then Opener(Strip(line))
    else if IsHeading(line) then Alien
    else Body
  }

  /** The region of the release contract's diagnostic rows. */
  const ROW_REGION: Region := RowKind

  /** The region of the QA plan's Landed blocks. */
  const LANDED_REGION: Region := LandedKind

  /** Every Landed heading is a heading, so testing for headings first loses none. */
  lemma LandedIsHeading(line: string)
    ensures IsLandedHeading(line) ==> IsHeading(line)
  {
  }

  // ----- Parsing a residue -----

  /** One whole entry: a line that opens it, and body lines only after that. */
  ghost predicate WholeEntry(kind: Region, e: Entry) {
    e.lines != [] && kind(e.lines[0]) == Opener(e.key) &&
    forall i | 1 <= i < |e.lines| :: kind(e.lines[i]) == Body
  }

  ghost predicate WholeEntries(kind: Region, es: seq<Entry>) {
    forall e | e in es :: WholeEntry(kind, e)
  }

  function Flatten(es: seq<Entry>): Lines {
    if es == [] then [] else es[0].lines + Flatten(es[1..])
  }

  lemma {:induction false} FlattenSnoc(es: seq<Entry>, e: Entry)
    ensures Flatten(es + [e]) == Flatten(es) + e.lines
  {
    if es == [] {
      assert es + [e] == [e];
    } else {
      assert (es + [e])[1..] == es[1..] + [e];
      FlattenSnoc(es[1..], e);
    }
  }

  /** One more line after the entries read so far; None where the source raises. */
  function Extend(kind: Region, es: seq<Entry>, line: string): (r: Option<seq<Entry>>)
  {
    match kind(line)
    case Alien => None
    case Opener(key) => Some(es + [Entry(key, [line])])
    case Body =>
      if es == [] then None else
        var e := es[|es| - 1];
        Some(es[..|es| - 1] + [Entry(e.key, e.lines + [line])])
  }

  lemma ExtendKeepsWhole(kind: Region, es: seq<Entry>, line: string)
    requires WholeEntries(kind, es)
    ensures var r := Extend(kind, es, line);
            r.Some? ==> WholeEntries(kind, r.value) && r.value != [] && Flatten(r.value) == Flatten(es) + [line]
  {
    if kind(line).Opener? {
      FlattenSnoc(es, Entry(kind(line).key, [line]));
    } else if kind(line).Body? && es != [] {
      var front, e := es[..|es| - 1], es[|es| - 1];
      assert es == front + [e] && e in es;
      FlattenSnoc(front, e);
      FlattenSnoc(front, Entry(e.key, e.lines + [line]));
    }
  }

  lemma FlattenTake(es: seq<Entry>, i: nat)
    requires i < |es|
    ensures Flatten(es[..i + 1]) == Flatten(es[..i]) + es[i].lines
  {
    assert es[..i + 1] == es[..i] + [es[i]];
    FlattenSnoc(es[..i], es[i]);
  }

  /** Splits a residue into whole entries, reading its lines in order. */
  function Parse(kind: Region, lines: Lines): Option<seq<Entry>> {
    if lines == [] then Some([]) else
      match Parse(kind, lines[..|lines| - 1])
      case None => None
      case Some(es) => Extend(kind, es, lines[|lines| - 1])
  }

  /** The entries of a residue are whole, and printing them gives the residue back. */
  lemma {:induction false} ParseIsWhole(kind: Region, lines: Lines)
    requires Parse(kind, lines).Some?
    ensures var es := Parse(kind, lines).value;
            WholeEntries(kind, es) && Flatten(es) == lines && (es == [] <==> lines == [])
  {
    if lines != [] {
      var front, last := lines[..|lines| - 1], lines[|lines| - 1];
      assert lines == front + [last];
      ParseIsWhole(kind, front);
      ExtendKeepsWhole(kind, Parse(kind, front).value, last);
    }
  }

  lemma ParseTake(kind: Region, lines: Lines, i: nat)
    requires i < |lines|
    ensures var r := Parse(kind, lines[..i]);
            Parse(kind, lines[..i + 1]) == if r.None? then None else Extend(kind, r.value, lines[i])
  {
    assert lines[..i + 1][..i] == lines[..i];
  }

  lemma {:induction false} RefusedPrefix(kind: Region, lines: Lines, n: nat)
    requires n <= |lines| && Parse(kind, lines[..n]).None?
    ensures Parse(kind, lines).None?
    decreases |lines|
  {
    if n == |lines| {
      assert lines[..n] == lines;
    } else {
      var front := lines[..|lines| - 1];
      assert front[..n] == lines[..n];
      RefusedPrefix(kind, front, n);
    }
  }

  lemma ParseLast(kind: Region, lines: Lines, line: string)
    ensures var r := Parse(kind, lines);
            Parse(kind, lines + [line]) == if r.None? then None else Extend(kind, r.value, line)
  {
    assert (lines + [line])[..|lines|] == lines;
  }

  /** Printing whole entries and parsing the print gives the entries back, so the parse is
      the only way to cut the lines into whole entries. */
  lemma {:induction false} ParseFlatten(kind: Region, es: seq<Entry>)
    requires WholeEntries(kind, es)
    ensures Parse(kind, Flatten(es)) == Some(es)
    decreases |Flatten(es)|, 1
  {
    if es != [] {
      var front, e := es[..|es| - 1], es[|es| - 1];
      assert es == front + [e] && e in es;
      FlattenSnoc(front, e);
      if |e.lines| == 1 {
        ParseFlatten(kind, front);
        ParseLast(kind, Flatten(front), e.lines[0]);
        assert e == Entry(e.key, [e.lines[0]]);
      } else {
        ParseGrownEntry(kind, front, e);
      }
    }
  }

  lemma WholeFront(kind: Region, front: seq<Entry>, e: Entry, shorter: Entry)
    requires WholeEntries(kind, front) && WholeEntry(kind, e) && |e.lines| > 1
    requires shorter == Entry(e.key, e.lines[..|e.lines| - 1])
    ensures WholeEntries(kind, front + [shorter])
  {
    assert WholeEntry(kind, shorter);
  }

  lemma {:induction false} ParseGrownEntry(kind: Region, front: seq<Entry>, e: Entry)
    requires WholeEntries(kind, front) && WholeEntry(kind, e) && |e.lines| > 1
    ensures Parse(kind, Flatten(front) + e.lines) == Some(front + [e])
    decreases |Flatten(front)| + |e.lines|, 0
  {
    hide WholeEntries, Flatten, Parse, Extend;
    var shorter := Entry(e.key, e.lines[..|e.lines| - 1]);
    var last := e.lines[|e.lines| - 1];
    assert e == Entry(e.key, shorter.lines + [last]);
    FlattenSnoc(front, shorter);
    WholeFront(kind, front, e, shorter);
    ParseFlatten(kind, front + [shorter]);
    ParseLast(kind, Flatten(front) + shorter.lines, last);
    assert Flatten(front) + e.lines == (Flatten(front) + shorter.lines) + [last];
    ExtendLast(kind, front, shorter, last);
  }

  lemma ExtendLast(kind: Region, front: seq<Entry>, e: Entry, line: string)
    requires kind(line) == Body
    ensures Extend(kind, front + [e], line) == Some(front + [Entry(e.key, e.lines + [line])])
  {
    assert (front + [e])[..|front|] == front;
  }

  /** Some line is alien, or a body line comes before any opener. */
  ghost predicate Unreadable(kind: Region, lines: Lines) {
    (exists line | line in lines :: kind(line).Alien?) || (lines != [] && kind(lines[0]).Body?)
  }

  /** Those are exactly the residues that are refused. */
  lemma {:induction false} RefusedExactly(kind: Region, lines: Lines)
    ensures Parse(kind, lines).None? <==> Unreadable(kind, lines)
  {
    if lines != [] {
      var front, last := lines[..|lines| - 1], lines[|lines| - 1];
      assert lines == front + [last];
      RefusedExactly(kind, front);
      if Parse(kind, front).Some? {
        ParseIsWhole(kind, front);
      }
    }
  }

  /** A residue of the release contract is read exactly when all its lines are keyed rows. */
  lemma RowsReadExactly(lines: Lines)
    ensures Parse(ROW_REGION, lines).Some? <==> forall line | line in lines :: KeyedRow(line).Some?
  {
    hide KeyedRow, Parse;
    RefusedExactly(ROW_REGION, lines);
  }

  /** A residue of the QA plan is read exactly when it opens with a Landed heading and has no
      other heading. */
  lemma LandedReadExactly(lines: Lines)
    ensures Parse(LANDED_REGION, lines).Some?
       <==> (lines != [] ==> IsLandedHeading(lines[0]))
            && forall line | line in lines && IsHeading(line) :: IsLandedHeading(line)
  {
    hide IsLandedHeading, IsHeading, Parse;
    RefusedExactly(LANDED_REGION, lines);
    forall line { LandedIsHeading(line); }
  }

  /** `_row_entries` and `_landed_entries`, as the loops they are. */
  method ParseEntries(kind: Region, lines: Lines) returns (r: Option<seq<Entry>>)
    ensures r == Parse(kind, lines)
    ensures r.None? <==> Unreadable(kind, lines)
    ensures r.Some? ==> WholeEntries(kind, r.value) && Flatten(r.value) == lines
  {
    RefusedExactly(kind, lines);
    hide Unreadable, WholeEntries;
    var entries: seq<Entry> := [];
    for i := 0 to |lines|
      invariant Parse(kind, lines[..i]) == Some(entries)
    {
      var line := lines[i];
      ParseTake(kind, lines, i);
      match kind(line)
      case Alien =>
        RefusedPrefix(kind, lines, i + 1);
        return None;
      case Opener(key) =>
        entries := entries + [Entry(key, [line])];
      case Body =>
        if entries == [] {
          RefusedPrefix(kind, lines, i + 1);
          return None;
        }
        var e := entries[|entries| - 1];
        entries := entries[..|entries| - 1] + [Entry(e.key, e.lines + [line])];
    }
    assert lines[..|lines|] == lines;
    ParseIsWhole(kind, lines);
    r := Some(entries);
  }
}
