/**
 Moving the renamed root package of a `Cargo.lock` to where Cargo sorts it: the text is split into package
 blocks, one block moves, and the blocks are joined again. On every canonical lockfile splitting and joining
 are inverse, so nothing but the order of the blocks changes.
 */
module Lockfile {
  import opened Wrappers
  import opened Text

  const MARKER := "[[package]]\n"
  const SEPARATOR := "\n\n"
  const NAME_PREFIX := "name = \""
  const SOURCE := "\nsource = "

  datatype LockError = NoPackages | NoRootPackage | SizeChanged

  // ---------------------------------------------------------------- reading the text

  predicate IsWhitespace(c: char) {
    || '\U{09}' <= c <= '\U{0D}' || c == ' ' || c == '\U{85}' || c == '\U{A0}' || c == '\U{1680}'
    || '\U{2000}' <= c <= '\U{200A}' || c == '\U{2028}' || c == '\U{2029}' || c == '\U{202F}' || c == '\U{205F}'
        || c == '\U{3000}'
  }

  function TrimEnd(s: string): string {
    if s != "" && IsWhitespace(s[|s| - 1]) then TrimEnd(s[..|s| - 1]) else s
  }

  /** The text from one marker to the next is one block, without its trailing whitespace. */
  function Blocks(packages: string): seq<string> {
    if packages == "" then []
    else
      var end := Next(packages, MARKER, 1);
      [TrimEnd(packages[..end])] + Blocks(packages[end..])
  }

  function Join(blocks: seq<string>): string
    requires blocks != []
  {
    if |blocks| == 1 then blocks[0] else blocks[0] + SEPARATOR + Join(blocks[1..])
  }

  /** A lockfile with this header and these packages, as Cargo writes it. */
  function Render(header: string, blocks: seq<string>): string
    requires blocks != []
  {
    header + Join(blocks) + "\n"
  }

  /** The second line of a block without its line ending, as `lines().nth(1)` gives it. */
  function SecondLine(block: string): Option<string> {
    var start := Next(block, "\n", 0) + 1;
    if start >= |block| then None
    else
      var end := Next(block, "\n", start);
      Some(if end < |block| && end > start && block[end - 1] == '\r' then block[start..end - 1] else block[start..end])
  }

  function PackageName(block: string): Option<string> {
    match SecondLine(block)
    case None => None
    case Some(line) =>
      if |line| > |NAME_PREFIX| && At(line, 0, NAME_PREFIX) && line[|line| - 1] == '"'
      then Some(line[|NAME_PREFIX|..|line| - 1]) else None
  }

  predicate IsRoot(block: string, root: string) {
    PackageName(block) == Some(root) && !Contains(block, SOURCE)
  }

  predicate SortsAfter(block: string, root: string) {
    PackageName(block).Some? && Less(root, PackageName(block).value)
  }

  /** The index of the first block that satisfies `p`, or the number of blocks. */
  function Position(blocks: seq<string>, p: string -> bool): (i: nat)
    ensures i <= |blocks| && (i < |blocks| ==> p(blocks[i]))
    ensures forall j | 0 <= j < i :: !p(blocks[j])
  {
    if blocks == [] || p(blocks[0]) then 0 else 1 + Position(blocks[1..], p)
  }

  function FirstRoot(blocks: seq<string>, root: string): nat {
    Position(blocks, block => IsRoot(block, root))
  }

  function FirstAfter(blocks: seq<string>, root: string): nat {
    Position(blocks, block => SortsAfter(block, root))
  }

  function Without(blocks: seq<string>, i: nat): seq<string>
    requires i < |blocks|
  {
    blocks[..i] + blocks[i + 1..]
  }

  function Insert(blocks: seq<string>, i: nat, block: string): seq<string>
    requires i <= |blocks|
  {
    blocks[..i] + [block] + blocks[i..]
  }

  /** Remove the root block and insert it before the first block with a larger name. */
  function Moved(blocks: seq<string>, root: string): seq<string>
    requires FirstRoot(blocks, root) < |blocks|
  {
    var current := FirstRoot(blocks, root);
    var rest := Without(blocks, current);
    Insert(rest, FirstAfter(rest, root), blocks[current])
  }

  /** `reposition_root_package`. */
  method RepositionRootPackage(lock: string, root: string) returns (r: Result<string, LockError>)
    ensures r == Repositioned(lock, root)
    ensures r.Ok? ==> Size(r.value) == Size(lock)
  {
    var first := Next(lock, MARKER, 0);
    if first >= |lock| {
      return Err(NoPackages);
    }
    var header, packages := lock[..first], lock[first..];
    var blocks := Blocks(packages);
    var current := FirstRoot(blocks, root);
    if current == |blocks| {
      return Err(NoRootPackage);
    }
    var rootBlock := blocks[current];
    blocks := Without(blocks, current);
    var target := FirstAfter(blocks, root);
    blocks := Insert(blocks, target, rootBlock);

    var output := header;
    output := output + Join(blocks);
    output := output + "\n";
    if Size(output) != Size(lock) {
      return Err(SizeChanged);
    }
    r := Ok(output);
  }

  function Repositioned(lock: string, root: string): Result<string, LockError> {
    var first := Next(lock, MARKER, 0);
    if first >= |lock| then Err(NoPackages)
    else
      var blocks := Blocks(lock[first..]);
      if FirstRoot(blocks, root) == |blocks| then Err(NoRootPackage)
      else
        var output := Render(lock[..first], Moved(blocks, root));
        if Size(output) != Size(lock) then Err(SizeChanged) else Ok(output)
  }

  // ---------------------------------------------------------------- canonical lockfiles

  /** One block: it starts with the marker line, holds no other marker line, and ends in no whitespace. */
  predicate BlockOk(b: string) {
    && At(b + "\n", 0, MARKER)
    && (forall i | 1 <= i <= |b| :: !At(b + "\n", i, MARKER))
    && b != "" && !IsWhitespace(b[|b| - 1])
  }

  predicate Canonical(header: string, blocks: seq<string>) {
    && blocks != []
    && (forall i | 0 <= i < |header| :: !At(header, i, MARKER))
    && (forall b | b in blocks :: BlockOk(b))
  }

  lemma TrimmedBlocks(b: string)
    requires b != "" && !IsWhitespace(b[|b| - 1])
    ensures TrimEnd(b) == b && TrimEnd(b + "\n") == b && TrimEnd(b + SEPARATOR) == b
  {
    assert (b + "\n")[..|b|] == b;
    assert (b + SEPARATOR)[..|b| + 1] == b + "\n";
  }

  /** A marker cannot straddle the end of a text that a marker follows: its only line feed is its last character. */
  lemma MarkersDoNotStraddle(before: string, after: string, i: nat)
    requires i < |before| < i + |MARKER| && At(after, 0, MARKER)
    ensures !At(before + after, i, MARKER)
  {
    AtIsPointwise(before + after, i, MARKER);
    AtIsPointwise(after, 0, MARKER);
    var last := i + |MARKER| - 1;
    assert (before + after)[last] == after[0 + (last - |before|)] == MARKER[last - |before|] != '\n';
    assert MARKER[|MARKER| - 1] == '\n';
  }

  lemma SamePrefixSameOccurrence(a: string, b: string, i: nat, pattern: string)
    requires i + |pattern| <= |a|
    ensures At(a + b, i, pattern) == At(a, i, pattern)
  {
  }

  /** Where the block before another one ends. */
  lemma BlockEndsAtNextMarker(b: string, rest: string)
    requires BlockOk(b) && At(rest, 0, MARKER)
    ensures Next(b + SEPARATOR + rest, MARKER, 1) == |b| + 2
    ensures At(b + SEPARATOR + rest, 0, MARKER)
  {
    hide Next, IsWhitespace;
    var text := b + SEPARATOR + rest;
    assert text == (b + "\n") + ("\n" + rest);
    SamePrefixSameOccurrence(b + "\n", "\n" + rest, 0, MARKER);
    forall i | 1 <= i < |b| + 2 ensures !At(text, i, MARKER) {
      if i + |MARKER| <= |b| + 1 {
        SamePrefixSameOccurrence(b + "\n", "\n" + rest, i, MARKER);
      } else if i <= |b| && i + |MARKER| <= |b| + 2 {
        AtIsPointwise(text, i, MARKER);
        assert text[i + (|b| - i)] == '\n' && MARKER[|b| - i] != '\n';
      } else if i + |MARKER| <= |b| + 2 {
      } else {
        assert text == (b + SEPARATOR) + rest;
        MarkersDoNotStraddle(b + SEPARATOR, rest, i);
      }
    }
    assert text[|b| + 2..] == rest;
    assert text[|b| + 2..|b| + 2 + |MARKER|] == rest[0..|MARKER|];
    NextIs(text, MARKER, 1, |b| + 2);
  }

  lemma LastBlockEndsTheText(b: string)
    requires BlockOk(b)
    ensures Next(b + "\n", MARKER, 1) == |b| + 1
  {
  }

  /** Splitting undoes joining. */
  lemma {:induction false} BlocksOfJoin(blocks: seq<string>)
    requires blocks != [] && forall b | b in blocks :: BlockOk(b)
    ensures Blocks(Join(blocks) + "\n") == blocks
    ensures At(Join(blocks) + "\n", 0, MARKER)
  {
    var b := blocks[0];
    assert b in blocks;
    TrimmedBlocks(b);
    if |blocks| == 1 {
      LastBlockEndsTheText(b);
      assert (b + "\n")[..|b| + 1] == b + "\n" && (b + "\n")[|b| + 1..] == "";
    } else {
      BlocksOfJoin(blocks[1..]);
      var rest := Join(blocks[1..]) + "\n";
      BlockEndsAtNextMarker(b, rest);
      var text := Join(blocks) + "\n";
      assert text == b + SEPARATOR + rest;
      assert text[..|b| + 2] == b + SEPARATOR && text[|b| + 2..] == rest;
      assert blocks == [b] + blocks[1..];
    }
  }

  lemma HeaderEndsAtFirstMarker(header: string, packages: string)
    requires (forall i | 0 <= i < |header| :: !At(header, i, MARKER)) && At(packages, 0, MARKER)
    ensures Next(header + packages, MARKER, 0) == |header|
  {
    var text := header + packages;
    forall i | 0 <= i < |header| ensures !At(text, i, MARKER) {
      if i + |MARKER| <= |header| {
        SamePrefixSameOccurrence(header, packages, i, MARKER);
      } else {
        MarkersDoNotStraddle(header, packages, i);
      }
    }
    assert text[|header|..|header| + |MARKER|] == packages[0..|MARKER|];
    NextIs(text, MARKER, 0, |header|);
  }

  /** Round trip: a canonical lockfile splits into exactly its header and its blocks. */
  lemma CanonicalLockfilesSplit(header: string, blocks: seq<string>)
    requires Canonical(header, blocks)
    ensures var lock := Render(header, blocks);
            && Next(lock, MARKER, 0) == |header| < |lock|
            && lock[..|header|] == header && Blocks(lock[|header|..]) == blocks
  {
    BlocksOfJoin(blocks);
    var packages := Join(blocks) + "\n";
    HeaderEndsAtFirstMarker(header, packages);
    assert Render(header, blocks) == header + packages;
  }

  // ---------------------------------------------------------------- what moving does

  function Total(blocks: seq<string>): nat {
    if blocks == [] then 0 else Size(blocks[0]) + Total(blocks[1..])
  }

  lemma {:induction false} JoinSize(blocks: seq<string>)
    requires blocks != []
    ensures Size(Join(blocks)) == Total(blocks) + 2 * (|blocks| - 1)
  {
    if |blocks| > 1 {
      JoinSize(blocks[1..]);
      SizeAdds(blocks[0], SEPARATOR);
      SizeAdds(blocks[0] + SEPARATOR, Join(blocks[1..]));
      assert SEPARATOR[1..] == "\n" && SEPARATOR[1..][1..] == "";
    } else {
      assert blocks[1..] == [];
    }
  }

  lemma RenderSize(header: string, blocks: seq<string>)
    requires blocks != []
    ensures Size(Render(header, blocks)) == Size(header) + Total(blocks) + 2 * |blocks| - 1
  {
    JoinSize(blocks);
    SizeAdds(header, Join(blocks));
    SizeAdds(header + Join(blocks), "\n");
    assert "\n"[1..] == "";
  }

  lemma {:induction false} TotalOfInsert(blocks: seq<string>, i: nat, block: string)
    requires i <= |blocks|
    ensures Total(Insert(blocks, i, block)) == Total(blocks) + Size(block)
  {
    var longer := Insert(blocks, i, block);
    if i == 0 {
      assert longer[1..] == blocks;
    } else {
      assert longer[1..] == Insert(blocks[1..], i - 1, block);
      TotalOfInsert(blocks[1..], i - 1, block);
    }
  }

  lemma InsertAddsOne(blocks: seq<string>, i: nat, block: string)
    requires i <= |blocks|
    ensures multiset(Insert(blocks, i, block)) == multiset(blocks) + multiset{block}
    ensures Without(Insert(blocks, i, block), i) == blocks
  {
    assert blocks == blocks[..i] + blocks[i..];
    var longer := Insert(blocks, i, block);
    assert longer[..i] == blocks[..i] && longer[i + 1..] == blocks[i..];
  }

  /** The moved block lands at `target` among the others, which keep their order. */
  lemma MovedKeepsTheOthers(blocks: seq<string>, root: string)
    requires FirstRoot(blocks, root) < |blocks|
    ensures var moved, current := Moved(blocks, root), FirstRoot(blocks, root);
            var target := FirstAfter(Without(blocks, current), root);
            && |moved| == |blocks| && target < |moved| && moved[target] == blocks[current]
            && Without(moved, target) == Without(blocks, current)
            && multiset(moved) == multiset(blocks)
            && Total(moved) == Total(blocks)
  {
    hide IsRoot, SortsAfter, Total, Position;
    var current := FirstRoot(blocks, root);
    var rest := Without(blocks, current);
    var target := FirstAfter(rest, root);
    assert blocks == Insert(rest, current, blocks[current]);
    InsertAddsOne(rest, current, blocks[current]);
    InsertAddsOne(rest, target, blocks[current]);
    TotalOfInsert(rest, current, blocks[current]);
    TotalOfInsert(rest, target, blocks[current]);
  }

  /** Among the blocks that carry a name, names never decrease. */
  ghost predicate Sorted(blocks: seq<string>) {
    forall i, j | 0 <= i < j < |blocks| && PackageName(blocks[i]).Some? && PackageName(blocks[j]).Some? ::
      !Less(PackageName(blocks[j]).value, PackageName(blocks[i]).value)
  }

  /** If the other blocks were sorted, everything is sorted afterwards. */
  lemma MovedSorts(blocks: seq<string>, root: string)
    requires FirstRoot(blocks, root) < |blocks| && Sorted(Without(blocks, FirstRoot(blocks, root)))
    ensures Sorted(Moved(blocks, root))
  {
    hide PackageName, Contains, Less;
    var current := FirstRoot(blocks, root);
    var rest := Without(blocks, current);
    var target := FirstAfter(rest, root);
    var moved := Moved(blocks, root);
    forall i, j | 0 <= i < j < |moved| && PackageName(moved[i]).Some? && PackageName(moved[j]).Some?
      ensures !Less(PackageName(moved[j]).value, PackageName(moved[i]).value)
    {
      var a, b := PackageName(moved[i]).value, PackageName(moved[j]).value;
      if i == target {
        assert moved[j] == rest[j - 1];
        if j - 1 > target {
          NotLessThanLarger(root, PackageName(rest[target]).value, b);
        }
        LessIsNotBoth(root, b);
      } else if j == target {
        assert !SortsAfter(rest[i], root);
      } else {
        assert moved[i] == rest[if i < target then i else i - 1] && moved[j] == rest[if j < target then j else j - 1];
      }
    }
  }

  lemma NotLessThanLarger(a: string, b: string, c: string)
    requires Less(a, b) && !Less(c, b)
    ensures Less(a, c)
  {
  }

  lemma LessIsNotBoth(a: string, b: string)
    ensures !(Less(a, b) && Less(b, a))
  {
  }

  ghost predicate UniqueRoot(blocks: seq<string>, root: string) {
    forall i, j | 0 <= i < j < |blocks| :: !(IsRoot(blocks[i], root) && IsRoot(blocks[j], root))
  }

  /** With a single root package, moving it a second time changes nothing. */
  lemma MovedIsStable(blocks: seq<string>, root: string)
    requires FirstRoot(blocks, root) < |blocks| && UniqueRoot(blocks, root)
    ensures FirstRoot(Moved(blocks, root), root) < |blocks|
    ensures Moved(Moved(blocks, root), root) == Moved(blocks, root)
  {
    hide IsRoot, SortsAfter, Total, Position;
    MovedKeepsTheOthers(blocks, root);
    var current := FirstRoot(blocks, root);
    var rest := Without(blocks, current);
    var target := FirstAfter(rest, root);
    var moved := Moved(blocks, root);
    forall i | 0 <= i < |rest| ensures !IsRoot(rest[i], root) {
      assert rest[i] == blocks[if i < current then i else i + 1];
    }
    forall i | 0 <= i < |moved| && i != target ensures !IsRoot(moved[i], root) {
      assert moved[i] == rest[if i < target then i else i - 1];
    }
    assert FirstRoot(moved, root) == target;
  }

  /** Main result: on a canonical lockfile the root block moves to its place and nothing else changes. */
  lemma CanonicalLockfilesAreRepositioned(header: string, blocks: seq<string>, root: string)
    requires Canonical(header, blocks)
    ensures FirstRoot(blocks, root) == |blocks| ==> Repositioned(Render(header, blocks), root) == Err(NoRootPackage)
    ensures FirstRoot(blocks, root) < |blocks| ==>
              && Repositioned(Render(header, blocks), root) == Ok(Render(header, Moved(blocks, root)))
              && Canonical(header, Moved(blocks, root))
              && Size(Render(header, Moved(blocks, root))) == Size(Render(header, blocks))
  {
    CanonicalLockfilesSplit(header, blocks);
    if FirstRoot(blocks, root) < |blocks| {
      MovedKeepsTheOthers(blocks, root);
      RenderSize(header, blocks);
      RenderSize(header, Moved(blocks, root));
      forall b | b in Moved(blocks, root) ensures BlockOk(b) {
        assert b in multiset(Moved(blocks, root));
      }
    }
  }

  /**
   Any text at all: it is repositioned exactly if it has a marker and a root block, and splitting and joining its
   blocks unmoved would not change its size; then the root block moves. Each error has its own condition.
   */
  lemma RepositioningSucceedsExactly(lock: string, root: string)
    ensures var first := Next(lock, MARKER, 0);
            if first >= |lock| then Repositioned(lock, root) == Err(NoPackages)
            else
              var header, blocks := lock[..first], Blocks(lock[first..]);
              && FirstRoot(blocks, root) <= |blocks|
              && if FirstRoot(blocks, root) == |blocks| then Repositioned(lock, root) == Err(NoRootPackage)
                 else && Repositioned(lock, root) == (if Size(Render(header, blocks)) == Size(lock)
                                                      then Ok(Render(header, Moved(blocks, root)))
                                                          else Err(SizeChanged))
                      && multiset(Moved(blocks, root)) == multiset(blocks)
  {
    hide Size, Join, Moved;
    var first := Next(lock, MARKER, 0);
    if first < |lock| {
      var header, blocks := lock[..first], Blocks(lock[first..]);
      if FirstRoot(blocks, root) < |blocks| {
        MovedKeepsTheOthers(blocks, root);
        RenderSize(header, blocks);
        RenderSize(header, Moved(blocks, root));
      }
    }
  }

  /** Repositioning a canonical lockfile with a single root package twice is repositioning it once. */
  lemma RepositioningIsIdempotent(header: string, blocks: seq<string>, root: string)
    requires Canonical(header, blocks) && UniqueRoot(blocks, root) && FirstRoot(blocks, root) < |blocks|
    ensures Repositioned(Render(header, blocks), root).Ok?
    ensures var once := Repositioned(Render(header, blocks), root).value; Repositioned(once, root) == Ok(once)
  {
    CanonicalLockfilesAreRepositioned(header, blocks, root);
    MovedIsStable(blocks, root);
    MovedKeepsTheOthers(blocks, root);
    CanonicalLockfilesAreRepositioned(header, Moved(blocks, root), root);
  }

  // ---------------------------------------------------------------- what is read from a block

  /** The second line of the block is `name = "..."` with this name in the quotes; lines may end in CR LF. */
  ghost predicate NameLine(block: string, first: string, name: string, rest: string) {
    && block == first + "\n" + "name = \"" + name + "\"" + rest
    && '\n' !in first && '\n' !in name
    && (rest == "" || rest[0] == '\n' || (|rest| >= 2 && rest[..2] == "\r\n"))
  }

  lemma SecondLineIs(block: string, first: string, line: string, rest: string)
    requires block == first + "\n" + line + rest && line != ""
    requires '\n' !in first && '\n' !in line && line[|line| - 1] != '\r'
    requires rest == "" || rest[0] == '\n' || (|rest| >= 2 && rest[..2] == "\r\n")
    ensures SecondLine(block) == Some(line)
  {
    hide Next, At;
    var start := |first| + 1;
    assert block[0..|first|] == first && block[|first|] == '\n';
    NextLineFeed(block, 0, |first|);
    var cr := rest != "" && rest[0] == '\r';
    var end := start + |line| + if cr then 1 else 0;
    assert block[start..start + |line|] == line;
    if cr {
      assert rest[..2][1] == '\n';
      assert block[end - 1] == rest[0] && block[end] == rest[1];
      assert block[start..end] == line + "\r";
    } else {
      assert rest != "" ==> block[end] == rest[0];
    }
    NextLineFeed(block, start, end);
  }

  lemma NameLinesAreRead(block: string, first: string, name: string, rest: string)
    requires NameLine(block, first, name, rest)
    ensures PackageName(block) == Some(name)
  {
    var line := "name = \"" + name + "\"";
    assert block == first + "\n" + line + rest;
    assert '\n' !in line;
    SecondLineIs(block, first, line, rest);
    assert line[0..8] == "name = \"" && line[8..|line| - 1] == name;
  }

  /** Where the second line stands in the block. */
  lemma SecondLineStands(block: string) returns (first: string, rest: string)
    requires SecondLine(block).Some?
    ensures block == first + "\n" + SecondLine(block).value + rest
    ensures '\n' !in first && '\n' !in SecondLine(block).value
    ensures rest == "" || rest[0] == '\n' || (|rest| >= 2 && rest[..2] == "\r\n")
  {
    hide Next, At;
    var n := Next(block, "\n", 0);
    var start := n + 1;
    var end := Next(block, "\n", start);
    var line := SecondLine(block).value;
    var stop := start + |line|;
    first, rest := block[..n], block[stop..];
    NoLineFeedBefore(block, 0);
    NoLineFeedBefore(block, start);
    LineFeedAt(block, n);
    assert line == block[start..stop] && stop <= end;
    assert block == block[..n] + [block[n]] + block[start..stop] + block[stop..];
    if end < |block| {
      LineFeedAt(block, end);
      if stop < end {
        assert rest[..2] == [block[stop], block[stop + 1]];
      }
    }
  }

  lemma QuotedName(line: string, name: string)
    requires |line| >= 9 && line[0..8] == "name = \"" && line[8..|line| - 1] == name && line[|line| - 1] == '"'
    ensures line == "name = \"" + name + "\""
  {
    assert line == line[0..8] + line[8..|line| - 1] + [line[|line| - 1]];
  }

  lemma ReadNamesHaveLines(block: string, name: string) returns (first: string, rest: string)
    requires PackageName(block) == Some(name)
    ensures NameLine(block, first, name, rest)
  {
    hide SecondLine;
    first, rest := SecondLineStands(block);
    var line := SecondLine(block).value;
    QuotedName(line, name);
    assert forall i | 0 <= i < |name| :: name[i] == line[8 + i];
  }

  /** The package name is what stands in quotes behind `name = ` on the second line, and nothing else. */
  lemma PackageNamesAreExact(block: string, name: string)
    ensures PackageName(block) == Some(name) <==> exists first, rest :: NameLine(block, first, name, rest)
  {
    if PackageName(block) == Some(name) {
      var first, rest := ReadNamesHaveLines(block, name);
    }
    if first, rest :| NameLine(block, first, name, rest) {
      NameLinesAreRead(block, first, name, rest);
    }
  }

  /** The root package is the one of that name without a source line. */
  lemma RootsAreExact(block: string, root: string)
    ensures IsRoot(block, root) <==>
            PackageName(block) == Some(root) && forall i: nat :: !At(block, i, "\nsource = ")
  {
    forall i: nat | i >= |block| ensures !At(block, i, SOURCE) {
    }
  }

  /** How two packages stand in a lockfile. */
  lemma TwoPackages(header: string, a: string, b: string)
    requires Canonical(header, [a, b])
    ensures Render(header, [a, b]) == header + (a + "\n\n" + b) + "\n"
    ensures Blocks(a + "\n\n" + b + "\n") == [a, b]
    ensures At(a + "\n", 0, "[[package]]\n") && At(b + "\n", 0, "[[package]]\n")
  {
    hide Blocks, At, Next;
    assert [a, b][1..] == [b];
    assert Join([a, b]) == a + "\n\n" + b;
    BlocksOfJoin([a, b]);
    assert a in [a, b] && b in [a, b];
  }
}
