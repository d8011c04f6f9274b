/**
 Rewriting the skeleton's names in one leftmost-longest pass. The pass is compared with an independent reading,
 position by position: what stands at the start of an occurrence becomes the replacement of its longest
 spelling, the rest of an occurrence disappears, and everything else stays.
 */
module Renamer {
  import opened Wrappers
  import opened Text
  import Lockfile

  /** The crate, image, snake and kebab spellings, in the order the matcher is given them. */
  const SPELLINGS: seq<string> := ["base_skeleton_rust", "base-skeleton-rust", "base_skeleton", "base-skeleton"]

  function Replaced(name: string, from: char, to: char): (r: string)
    ensures |r| == |name| && forall i | 0 <= i < |name| :: r[i] == if name[i] == from then to else name[i]
  {
    seq(|name|, i requires 0 <= i < |name| => if name[i] == from then to else name[i])
  }

  function Snake(name: string): string {
    Replaced(name, '-', '_')
  }

  function Kebab(name: string): string {
    Replaced(name, '_', '-')
  }

  type Replacements = r: seq<string> | |r| == |SPELLINGS| witness ["", "", "", ""]

  /** `Renamer::new`. */
  function New(name: string): Replacements {
    [Snake(name), Kebab(name), Snake(name), Kebab(name)]
  }

  /** The longest of the first `n` spellings that occur at position `i`. */
  function Longest(text: string, i: nat, n: nat): (r: Option<nat>)
    requires n <= |SPELLINGS|
    ensures r.None? <==> forall k | 0 <= k < n :: !At(text, i, SPELLINGS[k])
    ensures r.Some? ==> r.value < n && At(text, i, SPELLINGS[r.value])
    ensures r.Some? ==> forall k | 0 <= k < n && At(text, i, SPELLINGS[k]) :: |SPELLINGS[k]| <= |SPELLINGS[r.value]|
  {
    hide At;
    if n == 0 then None
    else
      var best := Longest(text, i, n - 1);
      if At(text, i, SPELLINGS[n - 1]) && (best.None? || |SPELLINGS[best.value]| < |SPELLINGS[n - 1]|)
      then Some(n - 1) else best
  }

  function Match(text: string, i: nat): (r: Option<nat>)
    ensures r.Some? ==> r.value < |SPELLINGS| && i + |SPELLINGS[r.value]| <= |text|
  {
    Longest(text, i, |SPELLINGS|)
  }

  lemma SpellingsStartWithTheirOnlyB(k: nat)
    requires k < |SPELLINGS|
    ensures 0 < |SPELLINGS[k]| && SPELLINGS[k][0] == 'b'
    ensures forall m | 0 < m < |SPELLINGS[k]| :: SPELLINGS[k][m] != 'b'
    ensures '\n' !in SPELLINGS[k] && '[' !in SPELLINGS[k]
  {
  }

  /** `Renamer::apply`, from position `i` on: skip to the next match, replace it, continue behind it. */
  function Rewrite(text: string, i: nat, names: Replacements): string
    requires i <= |text|
    decreases |text| - i
  {
    if i == |text| then ""
    else
      match Match(text, i)
      case None => [text[i]] + Rewrite(text, i + 1, names)
      case Some(k) =>
        SpellingsStartWithTheirOnlyB(k);
        names[k] + Rewrite(text, i + |SPELLINGS[k]|, names)
  }

  function Apply(text: string, names: Replacements): string {
    Rewrite(text, 0, names)
  }

  // ---------------------------------------------------------------- the reading position by position

  /** An occurrence that starts before `i` extends over `i`. */
  ghost predicate Covered(text: string, i: nat) {
    exists s: nat, k: nat :: s < i && Inside(text, i, s, k)
  }

  predicate Inside(text: string, i: nat, s: nat, k: nat) {
    k < |SPELLINGS| && At(text, s, SPELLINGS[k]) && i < s + |SPELLINGS[k]|
  }

  ghost function Piece(text: string, i: nat, names: Replacements): string
    requires i < |text|
  {
    match Match(text, i)
    case Some(k) => names[k]
    case None => if Covered(text, i) then "" else [text[i]]
  }

  ghost function Pieces(text: string, i: nat, names: Replacements): string
    requires i <= |text|
    decreases |text| - i
  {
    if i == |text| then "" else Piece(text, i, names) + Pieces(text, i + 1, names)
  }

  /** Occurrences are nested at one start or do not touch: `b` occurs only at the start of each spelling. */
  lemma OccurrencesNeverPartlyOverlap(text: string, i: nat, a: nat, j: nat, b: nat)
    requires a < |SPELLINGS| && b < |SPELLINGS| && At(text, i, SPELLINGS[a]) && At(text, j, SPELLINGS[b]) && i < j
    ensures i + |SPELLINGS[a]| <= j
  {
    SpellingsStartWithTheirOnlyB(a);
    SpellingsStartWithTheirOnlyB(b);
    hide At;
    if j < i + |SPELLINGS[a]| {
      CharactersOfOccurrence(text, j, SPELLINGS[b], 0);
      CharactersOfOccurrence(text, i, SPELLINGS[a], j - i);
    }
  }

  /** A match starts outside every earlier occurrence, and the next position to look at is outside all of them. */
  lemma MatchesLeaveNothingCovered(text: string, i: nat, k: nat)
    requires Match(text, i) == Some(k)
    ensures !Covered(text, i) && !Covered(text, i + |SPELLINGS[k]|)
    ensures forall j | i < j < i + |SPELLINGS[k]| :: Covered(text, j) && Match(text, j) == None
  {
    hide At, Longest;
    var end := i + |SPELLINGS[k]|;
    forall s: nat, a: nat | s < i ensures !Inside(text, i, s, a) {
      if Inside(text, i, s, a) {
        OccurrencesNeverPartlyOverlap(text, s, a, i, k);
      }
    }
    forall s: nat, a: nat | s < end ensures !Inside(text, end, s, a) {
      if Inside(text, end, s, a) {
        if s < i {
          OccurrencesNeverPartlyOverlap(text, s, a, i, k);
        } else if i < s {
          OccurrencesNeverPartlyOverlap(text, i, k, s, a);
        }
      }
    }
    forall j | i < j < end ensures Covered(text, j) && Match(text, j) == None {
      assert Inside(text, j, i, k);
      forall b | 0 <= b < |SPELLINGS| ensures !At(text, j, SPELLINGS[b]) {
        if At(text, j, SPELLINGS[b]) {
          OccurrencesNeverPartlyOverlap(text, i, k, j, b);
        }
      }
    }
  }

  lemma UnmatchedPositionsCoverNothing(text: string, i: nat)
    requires Match(text, i) == None && !Covered(text, i)
    ensures !Covered(text, i + 1)
  {
    hide At, Longest;
    var next := i + 1;
    forall s: nat, k: nat | s < next ensures !Inside(text, next, s, k) {
      assert s < i ==> !Inside(text, i, s, k);
    }
  }

  lemma {:induction false} SkippedPiecesAreEmpty(text: string, i: nat, end: nat, names: Replacements)
    requires i <= end <= |text| && forall j | i <= j < end :: Covered(text, j) && Match(text, j) == None
    ensures Pieces(text, i, names) == Pieces(text, end, names)
    decreases end - i
  {
    hide At, Match, Covered;
    if i < end {
      SkippedPiecesAreEmpty(text, i + 1, end, names);
    }
  }

  lemma {:induction false} RewriteIsPieces(text: string, i: nat, names: Replacements)
    requires i <= |text| && !Covered(text, i)
    ensures Rewrite(text, i, names) == Pieces(text, i, names)
    decreases |text| - i
  {
    hide Match, Covered;
    if i < |text| {
      match Match(text, i)
      case None =>
        UnmatchedPositionsCoverNothing(text, i);
        RewriteIsPieces(text, i + 1, names);
      case Some(k) =>
        SpellingsStartWithTheirOnlyB(k);
        MatchesLeaveNothingCovered(text, i, k);
        var end := i + |SPELLINGS[k]|;
        SkippedPiecesAreEmpty(text, i + 1, end, names);
        RewriteIsPieces(text, end, names);
    }
  }

  /** Main result: the single pass is the reading position by position, for every text. */
  lemma EveryOccurrenceIsReplacedOnce(text: string, names: Replacements)
    ensures Apply(text, names) == Pieces(text, 0, names)
  {
    RewriteIsPieces(text, 0, names);
  }

  // ---------------------------------------------------------------- length

  /** What the occurrences from `i` on add to the length: one difference for each start, of its longest spelling. */
  function Growth(text: string, i: nat, names: Replacements): int
    requires i <= |text|
    decreases |text| - i
  {
    if i == |text| then 0
    else
      Growth(text, i + 1, names) + match Match(text, i) case None => 0 case Some(k) => |names[k]| - |SPELLINGS[k]|
  }

  lemma {:induction false} NoGrowthBetweenMatches(text: string, i: nat, end: nat, names: Replacements)
    requires i <= end <= |text| && forall j | i <= j < end :: Match(text, j) == None
    ensures Growth(text, i, names) == Growth(text, end, names)
    decreases end - i
  {
    if i < end {
      NoGrowthBetweenMatches(text, i + 1, end, names);
    }
  }

  lemma {:induction false} RewriteLength(text: string, i: nat, names: Replacements)
    requires i <= |text|
    ensures |Rewrite(text, i, names)| == |text| - i + Growth(text, i, names)
    decreases |text| - i
  {
    hide Match, Covered;
    if i < |text| {
      match Match(text, i)
      case None =>
        RewriteLength(text, i + 1, names);
      case Some(k) =>
        SpellingsStartWithTheirOnlyB(k);
        MatchesLeaveNothingCovered(text, i, k);
        NoGrowthBetweenMatches(text, i + 1, i + |SPELLINGS[k]|, names);
        RewriteLength(text, i + |SPELLINGS[k]|, names);
    }
  }

  // ---------------------------------------------------------------- cutting the text

  /** No occurrence in `a + b` extends over the cut. */
  ghost predicate CleanCut(a: string, b: string) {
    forall i: nat, k: nat | k < |SPELLINGS| && i < |a| < i + |SPELLINGS[k]| :: !At(a + b, i, SPELLINGS[k])
  }

  lemma MatchBeforeTheCut(a: string, b: string, i: nat)
    requires CleanCut(a, b) && i < |a|
    ensures Match(a + b, i) == Match(a, i)
  {
    forall k | 0 <= k < |SPELLINGS| ensures At(a + b, i, SPELLINGS[k]) == At(a, i, SPELLINGS[k]) {
      if i + |SPELLINGS[k]| <= |a| {
        assert (a + b)[i..i + |SPELLINGS[k]|] == a[i..i + |SPELLINGS[k]|];
      }
    }
    SameOccurrencesSameMatch(a + b, i, a, i, |SPELLINGS|);
  }

  lemma MatchDependsOnTheRest(a: string, i: nat, b: string, j: nat)
    requires i <= |a| && j <= |b| && a[i..] == b[j..]
    ensures Match(a, i) == Match(b, j)
  {
    forall k | 0 <= k < |SPELLINGS| ensures At(a, i, SPELLINGS[k]) == At(b, j, SPELLINGS[k]) {
      var m := |SPELLINGS[k]|;
      if i + m <= |a| {
        assert a[i..i + m] == a[i..][..m] == b[j..][..m] == b[j..j + m];
      }
    }
    SameOccurrencesSameMatch(a, i, b, j, |SPELLINGS|);
  }

  lemma {:induction false} SameOccurrencesSameMatch(a: string, i: nat, b: string, j: nat, n: nat)
    requires n <= |SPELLINGS| && forall k | 0 <= k < n :: At(a, i, SPELLINGS[k]) == At(b, j, SPELLINGS[k])
    ensures Longest(a, i, n) == Longest(b, j, n)
  {
    hide At;
    if n > 0 {
      SameOccurrencesSameMatch(a, i, b, j, n - 1);
    }
  }

  lemma {:induction false} RewriteDependsOnTheRest(a: string, i: nat, b: string, j: nat, names: Replacements)
    requires i <= |a| && j <= |b| && a[i..] == b[j..]
    ensures Rewrite(a, i, names) == Rewrite(b, j, names)
    decreases |b| - j
  {
    hide At, Match;
    assert |a| - i == |a[i..]| == |b[j..]| == |b| - j;
    if j < |b| {
      MatchDependsOnTheRest(a, i, b, j);
      var step := match Match(b, j) case None => 1 case Some(k) => |SPELLINGS[k]|;
      if Match(b, j).Some? {
        SpellingsStartWithTheirOnlyB(Match(b, j).value);
      }
      assert a[i + step..] == a[i..][step..] == b[j..][step..] == b[j + step..];
      assert a[i] == a[i..][0] == b[j..][0] == b[j];
      RewriteDependsOnTheRest(a, i + step, b, j + step, names);
    }
  }

  lemma {:induction false} RewriteBeforeTheCut(a: string, b: string, i: nat, names: Replacements)
    requires CleanCut(a, b) && i <= |a|
    ensures Rewrite(a + b, i, names) == Rewrite(a, i, names) + Rewrite(b, 0, names)
    decreases |a| - i
  {
    hide At, Match, CleanCut;
    if i == |a| {
      assert (a + b)[|a|..] == b == b[0..];
      RewriteDependsOnTheRest(a + b, |a|, b, 0, names);
    } else {
      MatchBeforeTheCut(a, b, i);
      match Match(a, i)
      case None => RewriteBeforeTheCut(a, b, i + 1, names);
      case Some(k) =>
        SpellingsStartWithTheirOnlyB(k);
        RewriteBeforeTheCut(a, b, i + |SPELLINGS[k]|, names);
    }
  }

  /** Text that is cut where no occurrence is can be rewritten part by part. */
  lemma PartsAreRewrittenAlone(a: string, b: string, names: Replacements)
    requires CleanCut(a, b)
    ensures Apply(a + b, names) == Apply(a, names) + Apply(b, names)
  {
    RewriteBeforeTheCut(a, b, 0, names);
  }

  /** In particular before a line feed and before an opening bracket. */
  lemma CutsBeforeOtherCharactersAreClean(a: string, b: string)
    requires b == "" || b[0] == '\n' || b[0] == '['
    ensures CleanCut(a, b)
  {
    forall i: nat, k: nat | k < |SPELLINGS| && i < |a| < i + |SPELLINGS[k]| ensures !At(a + b, i, SPELLINGS[k]) {
      SpellingsStartWithTheirOnlyB(k);
      if b != "" && At(a + b, i, SPELLINGS[k]) {
        CharactersOfOccurrence(a + b, i, SPELLINGS[k], |a| - i);
      }
    }
  }

  // ---------------------------------------------------------------- lockfiles

  datatype Rendered = Verbatim(bytes: seq<bv8>) | Rewritten(text: string) | Failed(error: Lockfile.LockError)

  /** `render`: `text` is what the bytes decode to, if they are valid UTF-8. */
  function Render(relative: string, bytes: seq<bv8>, text: Option<string>, name: string): Rendered {
    match text
    case None => Verbatim(bytes)
    case Some(t) =>
      var renamed := Apply(t, New(name));
      if relative == "Cargo.lock" then
        match Lockfile.Repositioned(renamed, Snake(name))
        case Ok(lock) => Rewritten(lock)
        case Err(e) => Failed(e)
      else Rewritten(renamed)
  }

  /** Binary files are copied, texts are rewritten, and the root lockfile is repositioned as well. */
  lemma RenderedFiles(relative: string, bytes: seq<bv8>, text: string, name: string)
    ensures Render(relative, bytes, None, name) == Verbatim(bytes)
    ensures relative != "Cargo.lock" ==>
              Render(relative, bytes, Some(text), name) == Rewritten(Pieces(text, 0, New(name)))
    ensures relative == "Cargo.lock" ==>
              var rendered := Render(relative, bytes, Some(text), name);
              && rendered == match Lockfile.Repositioned(Pieces(text, 0, New(name)), Snake(name)) {
                               case Ok(lock) => Rewritten(lock)
                               case Err(error) => Failed(error)
                             }
              && (rendered.Rewritten? ==> Size(rendered.text) == Size(Pieces(text, 0, New(name))))
  {
    hide Apply, Pieces, Size;
    EveryOccurrenceIsReplacedOnce(text, New(name));
  }

  function ApplyToAll(blocks: seq<string>, names: Replacements): (r: seq<string>)
    ensures |r| == |blocks| && forall i | 0 <= i < |blocks| :: r[i] == Apply(blocks[i], names)
  {
    if blocks == [] then [] else [Apply(blocks[0], names)] + ApplyToAll(blocks[1..], names)
  }

  lemma ShortTextsStay(text: string, names: Replacements)
    requires text == "\n" || text == "\n\n"
    ensures Apply(text, names) == text
  {
    forall i | 0 <= i < |text| ensures Match(text, i) == None {
      forall k | 0 <= k < |SPELLINGS| ensures !At(text, i, SPELLINGS[k]) {
        SpellingsStartWithTheirOnlyB(k);
        if At(text, i, SPELLINGS[k]) {
          CharactersOfOccurrence(text, i, SPELLINGS[k], 0);
        }
      }
    }
    hide At, Longest;
    if |text| == 2 {
      assert Rewrite(text, 1, names) == [text[1]] + Rewrite(text, 2, names);
    }
    assert Rewrite(text, 0, names) == [text[0]] + Rewrite(text, 1, names);
  }

  lemma {:induction false} JoinedBlocksAreRewrittenAlone(blocks: seq<string>, names: Replacements)
    requires blocks != [] && forall i | 0 <= i < |blocks| :: blocks[i] != "" && blocks[i][0] == '['
    ensures Apply(Lockfile.Join(blocks), names) == Lockfile.Join(ApplyToAll(blocks, names))
  {
    if |blocks| > 1 {
      var rest := Lockfile.Join(blocks[1..]);
      JoinedBlocksAreRewrittenAlone(blocks[1..], names);
      CutsBeforeOtherCharactersAreClean(blocks[0], Lockfile.SEPARATOR);
      PartsAreRewrittenAlone(blocks[0], Lockfile.SEPARATOR, names);
      assert rest[0] == '[';
      CutsBeforeOtherCharactersAreClean(blocks[0] + Lockfile.SEPARATOR, rest);
      PartsAreRewrittenAlone(blocks[0] + Lockfile.SEPARATOR, rest, names);
      ShortTextsStay(Lockfile.SEPARATOR, names);
      assert ApplyToAll(blocks, names)[1..] == ApplyToAll(blocks[1..], names);
    }
  }

  lemma BlocksStartWithABracket(b: string)
    requires Lockfile.BlockOk(b)
    ensures b != "" && b[0] == '['
  {
    CharactersOfOccurrence(b + "\n", 0, Lockfile.MARKER, 0);
  }

  lemma LockfilesAreRenamedBlockByBlock(header: string, blocks: seq<string>, names: Replacements)
    requires Lockfile.Canonical(header, blocks)
    ensures Apply(Lockfile.Render(header, blocks), names) ==
            Lockfile.Render(Apply(header, names), ApplyToAll(blocks, names))
  {
    hide At, Apply, Lockfile.BlockOk, CleanCut;
    forall i | 0 <= i < |blocks| ensures blocks[i] != "" && blocks[i][0] == '[' {
      BlocksStartWithABracket(blocks[i]);
    }
    var joined := Lockfile.Join(blocks);
    assert joined[0] == '[';
    JoinedBlocksAreRewrittenAlone(blocks, names);
    CutsBeforeOtherCharactersAreClean(header, joined);
    PartsAreRewrittenAlone(header, joined, names);
    CutsBeforeOtherCharactersAreClean(header + joined, "\n");
    PartsAreRewrittenAlone(header + joined, "\n", names);
    ShortTextsStay("\n", names);
  }

  // ---------------------------------------------------------------- markers survive

  /** What a project name is made of. */
  predicate IsNameText(s: string) {
    s != "" && forall c | c in s :: 'a' <= c <= 'z' || '0' <= c <= '9' || c == '-' || c == '_'
  }

  ghost predicate NamesOk(names: Replacements) {
    forall k | 0 <= k < |SPELLINGS| :: IsNameText(names[k])
  }

  lemma ProjectNamesAreOk(name: string)
    requires IsNameText(name)
    ensures NamesOk(New(name))
  {
    assert forall i | 0 <= i < |name| :: name[i] in name;
  }

  lemma MatchesStartWithB(text: string, i: nat)
    requires i < |text| && text[i] != 'b'
    ensures Match(text, i) == None
  {
    hide At;
    forall k | 0 <= k < |SPELLINGS| ensures !At(text, i, SPELLINGS[k]) {
      SpellingsStartWithTheirOnlyB(k);
      if At(text, i, SPELLINGS[k]) {
        CharactersOfOccurrence(text, i, SPELLINGS[k], 0);
      }
    }
  }

  lemma UnmatchedCharacterIsCopied(text: string, j: nat, names: Replacements)
    requires j < |text| && Match(text, j) == None
    ensures Rewrite(text, j, names) == [text[j]] + Rewrite(text, j + 1, names)
  {
    hide Match;
  }

  lemma MatchIsReplaced(text: string, j: nat, k: nat, names: Replacements)
    requires j < |text| && Match(text, j) == Some(k)
    ensures Rewrite(text, j, names) == names[k] + Rewrite(text, j + |SPELLINGS[k]|, names)
  {
    hide Match;
  }

  /** Text without matches is copied. */
  lemma {:induction false} UnmatchedTextIsCopied(text: string, j: nat, end: nat, names: Replacements)
    requires j <= end <= |text| && forall q | j <= q < end :: Match(text, q) == None
    ensures Rewrite(text, j, names) == text[j..end] + Rewrite(text, end, names)
    decreases end - j
  {
    hide Match, Rewrite;
    if j < end {
      UnmatchedCharacterIsCopied(text, j, names);
      UnmatchedTextIsCopied(text, j + 1, end, names);
      assert text[j..end] == [text[j]] + text[j + 1..end];
    }
  }

  const MARKER := Lockfile.MARKER

  /** From position `p` on, the text will be rewritten to begin with what the marker has from `m` on. */
  predicate SpellsMarker(text: string, p: nat, m: nat, names: Replacements)
    requires p <= |text| && m <= |MARKER|
    decreases |text| - p
  {
    m == |MARKER|
    || (p < |text| &&
        match Match(text, p)
        case None => text[p] == MARKER[m] && SpellsMarker(text, p + 1, m + 1, names)
        case Some(k) =>
          SpellingsStartWithTheirOnlyB(k);
          At(MARKER, m, names[k]) && SpellsMarker(text, p + |SPELLINGS[k]|, m + |names[k]|, names))
  }

  /** Whatever will be rewritten to a marker is one already. */
  ghost predicate Genuine(text: string, names: Replacements) {
    forall p: nat | p <= |text| && SpellsMarker(text, p, 0, names) :: At(text, p, MARKER)
  }

  lemma PrefixOfSum(t: string, a: string, b: string)
    requires |a| <= |t|
    ensures t <= a + b <==> t[..|a|] == a && t[|a|..] <= b
  {
    if t <= a + b {
      assert t[..|a|] == (a + b)[..|t|][..|a|] == a;
      assert t[|a|..] == (a + b)[..|t|][|a|..] == b[..|t| - |a|];
    }
    if t[..|a|] == a && t[|a|..] <= b {
      assert t == t[..|a|] + t[|a|..];
      assert b == t[|a|..] + b[|t| - |a|..];
      assert a + b == t + b[|t| - |a|..];
    }
  }

  lemma NamesHaveOneLine(names: Replacements, k: nat)
    requires NamesOk(names) && k < |SPELLINGS|
    ensures names[k] != "" && forall i | 0 <= i < |names[k]| :: names[k][i] != '[' && names[k][i] != '\n'
  {
    assert forall i | 0 <= i < |names[k]| :: names[k][i] in names[k];
  }

  lemma MarkerAfterName(name: string, rest: string, m: nat)
    requires name != "" && '\n' !in name && m < |MARKER|
    ensures MARKER[m..] <= name + rest <==> At(MARKER, m, name) && MARKER[m + |name|..] <= rest
  {
    if |name| <= |MARKER| - m {
      PrefixOfSum(MARKER[m..], name, rest);
      assert MARKER[m..][..|name|] == MARKER[m..m + |name|];
      assert MARKER[m..][|name|..] == MARKER[m + |name|..];
    } else {
      var last := |MARKER| - 1 - m;
      assert name[last] in name;
      assert MARKER[m..][last] != (name + rest)[last];
    }
  }

  lemma MarkerAfterCharacter(c: char, rest: string, m: nat)
    requires m < |MARKER|
    ensures MARKER[m..] <= [c] + rest <==> c == MARKER[m] && MARKER[m + 1..] <= rest
  {
    PrefixOfSum(MARKER[m..], [c], rest);
  }

  lemma CopiedCharactersSpell(text: string, p: nat, m: nat, names: Replacements)
    requires p < |text| && m < |MARKER| && Match(text, p) == None
    ensures SpellsMarker(text, p, m, names) <==> text[p] == MARKER[m] && SpellsMarker(text, p + 1, m + 1, names)
    ensures MARKER[m..] <= Rewrite(text, p, names) <==>
            text[p] == MARKER[m] && MARKER[m + 1..] <= Rewrite(text, p + 1, names)
  {
    hide Match, Rewrite;
    UnmatchedCharacterIsCopied(text, p, names);
    MarkerAfterCharacter(text[p], Rewrite(text, p + 1, names), m);
  }

  lemma ReplacementsSpell(text: string, p: nat, m: nat, k: nat, names: Replacements)
    requires NamesOk(names) && p < |text| && m < |MARKER| && Match(text, p) == Some(k)
    ensures var next := p + |SPELLINGS[k]|;
            && p < next && (SpellsMarker(text, p, m, names) <==>
                            At(MARKER, m, names[k]) && SpellsMarker(text, next, m + |names[k]|, names))
            && (MARKER[m..] <= Rewrite(text, p, names) <==>
                At(MARKER, m, names[k]) && MARKER[m + |names[k]|..] <= Rewrite(text, next, names))
  {
    hide Match, Rewrite, NamesOk;
    SpellingsStartWithTheirOnlyB(k);
    NamesHaveOneLine(names, k);
    MatchIsReplaced(text, p, k, names);
    MarkerAfterName(names[k], Rewrite(text, p + |SPELLINGS[k]|, names), m);
  }

  /** A text is said to spell the marker exactly where the rewritten text begins with it. */
  lemma {:induction false} SpellingIsRewriting(text: string, p: nat, m: nat, names: Replacements)
    requires NamesOk(names) && p <= |text| && m <= |MARKER|
    ensures SpellsMarker(text, p, m, names) <==> MARKER[m..] <= Rewrite(text, p, names)
    decreases |text| - p
  {
    hide Match, NamesOk, Rewrite;
    if m == |MARKER| {
    } else if p == |text| {
      RewriteOfNothing(text, names);
    } else if Match(text, p).None? {
      CopiedCharactersSpell(text, p, m, names);
      SpellingIsRewriting(text, p + 1, m + 1, names);
    } else {
      var k := Match(text, p).value;
      ReplacementsSpell(text, p, m, k, names);
      hide SpellsMarker;
      if At(MARKER, m, names[k]) {
        SpellingIsRewriting(text, p + |SPELLINGS[k]|, m + |names[k]|, names);
      }
    }
  }

  lemma OccurrenceInTheRest(first: string, rest: string, i: nat, pattern: string)
    requires At(first + rest, i, pattern) && |first| <= i
    ensures At(rest, i - |first|, pattern)
  {
    assert rest[i - |first|..i - |first| + |pattern|] == (first + rest)[i..i + |pattern|];
  }

  /** In a text without disguised markers, every marker of the rewritten text stands where the text has one. */
  lemma {:induction false} MarkersComeFromMarkers(text: string, j: nat, i: nat, names: Replacements) returns (p: nat)
    requires NamesOk(names) && Genuine(text, names) && j <= |text|
    requires At(Rewrite(text, j, names), i, MARKER)
    ensures j <= p <= |text| && At(text, p, MARKER)
    ensures i + |Rewrite(text, p, names)| == |Rewrite(text, j, names)|
    decreases |text| - j
  {
    hide Match, NamesOk, SpellsMarker;
    var output := Rewrite(text, j, names);
    if i == 0 {
      assert MARKER[0..] == MARKER == output[..|MARKER|];
      SpellingIsRewriting(text, j, 0, names);
      p := j;
    } else {
      CharactersOfOccurrence(output, i, MARKER, 0);
      var first := if Match(text, j).Some? then names[Match(text, j).value] else [text[j]];
      var next := if Match(text, j).Some? then j + |SPELLINGS[Match(text, j).value]| else j + 1;
      if Match(text, j).Some? {
        SpellingsStartWithTheirOnlyB(Match(text, j).value);
        NamesHaveOneLine(names, Match(text, j).value);
      }
      assert output == first + Rewrite(text, next, names);
      OccurrenceInTheRest(first, Rewrite(text, next, names), i, MARKER);
      p := MarkersComeFromMarkers(text, next, i - |first|, names);
    }
  }

  /** Brackets are in no spelling, so the pass stops at each of them, with less output to come. */
  lemma {:induction false} BracketsAreReached(text: string, j: nat, p: nat,
          names: Replacements) returns (before: string)
    requires NamesOk(names) && j <= p < |text| && text[p] == '['
    ensures Rewrite(text, j, names) == before + Rewrite(text, p, names) && (before == "" <==> j == p)
    decreases p - j
  {
    hide Match, NamesOk, Rewrite;
    if j == p {
      before := "";
    } else {
      var first, next;
      if Match(text, j).Some? {
        var k := Match(text, j).value;
        SpellingsStartWithTheirOnlyB(k);
        NamesHaveOneLine(names, k);
        MatchesHoldNoBrackets(text, j, k, p);
        MatchIsReplaced(text, j, k, names);
        first, next := names[k], j + |SPELLINGS[k]|;
      } else {
        UnmatchedCharacterIsCopied(text, j, names);
        first, next := [text[j]], j + 1;
      }
      var rest := BracketsAreReached(text, next, p, names);
      before := first + rest;
      assert first + (rest + Rewrite(text, p, names)) == before + Rewrite(text, p, names);
    }
  }

  lemma MatchesHoldNoBrackets(text: string, j: nat, k: nat, p: nat)
    requires Match(text, j) == Some(k) && j < p < |text| && text[p] == '['
    ensures j + |SPELLINGS[k]| <= p
  {
    SpellingsStartWithTheirOnlyB(k);
    hide At;
    if p < j + |SPELLINGS[k]| {
      CharactersOfOccurrence(text, j, SPELLINGS[k], p - j);
    }
  }

  /** Every marker of the rewritten text stands where the text has one. */
  ghost predicate MarkersStand(text: string, names: Replacements) {
    forall i: nat | At(Apply(text, names), i, MARKER) :: exists p: nat :: MovedTo(text, p, i, names)
  }

  /** The marker at `p` of the text is the one at `i` of the rewritten text. */
  ghost predicate MovedTo(text: string, p: nat, i: nat, names: Replacements) {
    p <= |text| && At(text, p, MARKER) && i + |Rewrite(text, p, names)| == |Apply(text, names)|
  }

  /** Where the marker that `p` spells ends up. */
  lemma SpelledMarkersAppear(text: string, p: nat, names: Replacements) returns (i: nat)
    requires NamesOk(names) && p <= |text| && SpellsMarker(text, p, 0, names)
    ensures At(Apply(text, names), i, MARKER) && i + |Rewrite(text, p, names)| == |Apply(text, names)|
    ensures p < |text| && text[p] == '[' && (i == 0 <==> p == 0)
  {
    hide Match, NamesOk;
    SpellingIsRewriting(text, p, 0, names);
    SpellingsStartAtBrackets(text, p, names);
    var before := BracketsAreReached(text, 0, p, names);
    i := |before|;
    assert MARKER[0..] == MARKER;
    assert Apply(text, names)[i..i + |MARKER|] == Rewrite(text, p, names)[..|MARKER|];
  }

  lemma SpellingsStartAtBrackets(text: string, p: nat, names: Replacements)
    requires NamesOk(names) && p <= |text| && SpellsMarker(text, p, 0, names)
    ensures p < |text| && text[p] == '['
  {
    if Match(text, p).Some? {
      NamesAreBehindBrackets(names, Match(text, p).value, 0);
    }
  }

  lemma NamesAreBehindBrackets(names: Replacements, k: nat, m: nat)
    requires NamesOk(names) && k < |SPELLINGS| && m < 2
    ensures !At(MARKER, m, names[k])
  {
    NamesHaveOneLine(names, k);
    assert MARKER[m] == '[' != names[k][0];
    AtIsPointwise(MARKER, m, names[k]);
  }

  /** Exactly the texts without disguised markers keep their markers to themselves. */
  lemma MarkersStandExactly(text: string, names: Replacements)
    requires NamesOk(names)
    ensures MarkersStand(text, names) <==> Genuine(text, names)
  {
    hide NamesOk, SpellsMarker, Rewrite, At;
    if Genuine(text, names) {
      forall i: nat | At(Apply(text, names), i, MARKER) ensures exists p: nat :: MovedTo(text, p, i, names) {
        var p := MarkersComeFromMarkers(text, 0, i, names);
        assert MovedTo(text, p, i, names);
      }
    }
    if MarkersStand(text, names) {
      forall p: nat | p <= |text| && SpellsMarker(text, p, 0, names) ensures At(text, p, MARKER) {
        var i := SpelledMarkersAppear(text, p, names);
        var q: nat :| MovedTo(text, q, i, names);
        SameRestSamePlace(text, p, q, names);
      }
    }
  }

  lemma SameRestSamePlace(text: string, p: nat, q: nat, names: Replacements)
    requires NamesOk(names) && p < |text| && text[p] == '[' && At(text, q, MARKER)
    requires |Rewrite(text, p, names)| == |Rewrite(text, q, names)|
    ensures p == q
  {
    CharactersOfOccurrence(text, q, MARKER, 0);
    hide NamesOk, Rewrite;
    if p < q {
      var before := BracketsAreReached(text, p, q, names);
    } else {
      var before := BracketsAreReached(text, q, p, names);
    }
  }

  // ---------------------------------------------------------------- which names disguise no marker

  /** No replacement occurs in the marker. */
  ghost predicate OutsideMarker(names: Replacements) {
    forall k: nat, m: nat | k < |SPELLINGS| :: !At(MARKER, m, names[k])
  }

  lemma {:induction false} OutsideNamesSpellPlainly(text: string, p: nat, m: nat, names: Replacements)
    requires OutsideMarker(names) && p <= |text| && m <= |MARKER| && SpellsMarker(text, p, m, names)
    ensures MARKER[m..] <= text[p..]
    decreases |text| - p
  {
    hide Match;
    if m < |MARKER| {
      OutsideNamesSpellPlainly(text, p + 1, m + 1, names);
      assert text[p..] == [text[p]] + text[p + 1..];
      MarkerAfterCharacter(text[p], text[p + 1..], m);
    }
  }

  /** A marker in which a replacement was put back to its spelling. */
  function Disguised(k: nat, m: nat, names: Replacements): string
    requires k < |SPELLINGS| && At(MARKER, m, names[k])
  {
    MARKER[..m] + SPELLINGS[k] + MARKER[m + |names[k]|..]
  }

  lemma MarkersHaveNoSpellingCharacters(q: nat)
    requires q < |MARKER|
    ensures MARKER[q] != 'b' && MARKER[q] != '_' && MARKER[q] != '-'
  {
  }

  lemma PartsOfDisguises(k: nat, m: nat, names: Replacements)
    requires k < |SPELLINGS| && At(MARKER, m, names[k])
    ensures var text, end := Disguised(k, m, names), m + |SPELLINGS[k]|;
            && end <= |text| && text[0..m] == MARKER[..m] && text[m..end] == SPELLINGS[k]
            && text[end..|text|] == MARKER[m + |names[k]|..]
    ensures MARKER == MARKER[..m] + (names[k] + MARKER[m + |names[k]|..])
  {
  }

  lemma DisguisesMatchOnce(k: nat, m: nat, names: Replacements)
    requires NamesOk(names) && k < |SPELLINGS| && At(MARKER, m, names[k])
    ensures var text, end := Disguised(k, m, names), m + |SPELLINGS[k]|;
            && end <= |text| && Match(text, m) == Some(k)
            && forall q: nat | q < |text| && (q < m || end <= q) :: Match(text, q) == None
  {
    var text, end := Disguised(k, m, names), m + |SPELLINGS[k]|;
    PartsOfDisguises(k, m, names);
    assert At(text, m, SPELLINGS[k]);
    forall q: nat | q < |text| && (q < m || end <= q) ensures Match(text, q) == None {
      MarkersHaveNoSpellingCharacters(if q < m then q else q - end + m + |names[k]|);
      MatchesStartWithB(text, q);
    }
    hide At;
    var r := Match(text, m).value;
    AgreeingSpellings(text, m, k, r);
    if r != k {
      CharactersOfOccurrence(text, m, SPELLINGS[r], |SPELLINGS[k]|);
      MarkersHaveNoSpellingCharacters(m + |names[k]|);
    }
  }

  /** Two spellings at one place are the same or one is the other with the suffix of the crate or the image. */
  lemma AgreeingSpellings(text: string, i: nat, k: nat, r: nat)
    requires k < |SPELLINGS| && r < |SPELLINGS| && At(text, i, SPELLINGS[k]) && At(text, i, SPELLINGS[r])
    requires |SPELLINGS[k]| <= |SPELLINGS[r]|
    ensures r == k || (|SPELLINGS[k]| < |SPELLINGS[r]| && SPELLINGS[r][|SPELLINGS[k]|] in "_-")
  {
    CharactersOfOccurrence(text, i, SPELLINGS[k], 4);
    CharactersOfOccurrence(text, i, SPELLINGS[r], 4);
  }

  lemma DisguisesAreNoMarkers(k: nat, m: nat, names: Replacements)
    requires k < |SPELLINGS| && At(MARKER, m, names[k]) && m < |MARKER|
    ensures !At(Disguised(k, m, names), 0, MARKER)
  {
    SpellingsStartWithTheirOnlyB(k);
    MarkersHaveNoSpellingCharacters(m);
    assert Disguised(k, m, names)[m] == 'b';
    AtIsPointwise(Disguised(k, m, names), 0, MARKER);
  }

  /** A disguised marker is rewritten to a marker, and is none. */
  lemma DisguisesAreRewritten(k: nat, m: nat, names: Replacements)
    requires NamesOk(names) && k < |SPELLINGS| && At(MARKER, m, names[k])
    ensures Apply(Disguised(k, m, names), names) == MARKER
    ensures !At(Disguised(k, m, names), 0, MARKER)
  {
    var text, end := Disguised(k, m, names), m + |SPELLINGS[k]|;
    NamesHaveOneLine(names, k);
    OccurrencesFit(MARKER, m, names[k]);
    DisguisesAreNoMarkers(k, m, names);
    DisguisesMatchOnce(k, m, names);
    PartsOfDisguises(k, m, names);
    SpellingsStartWithTheirOnlyB(k);
    hide Match, NamesOk, Rewrite, Disguised, At, Apply;
    OneMatch(text, m, k, names);
  }

  lemma OneMatch(text: string, i: nat, k: nat, names: Replacements)
    requires i < |text| && Match(text, i) == Some(k)
    requires forall q: nat | q < |text| && (q < i || i + |SPELLINGS[k]| <= q) :: Match(text, q) == None
    ensures Apply(text, names) == text[0..i] + (names[k] + text[i + |SPELLINGS[k]|..|text|])
  {
    hide Match, Rewrite;
    UnmatchedTextIsCopied(text, 0, i, names);
    MatchIsReplaced(text, i, k, names);
    UnmatchedTextIsCopied(text, i + |SPELLINGS[k]|, |text|, names);
    RewriteOfNothing(text, names);
  }

  lemma RewriteOfNothing(text: string, names: Replacements)
    ensures Rewrite(text, |text|, names) == ""
  {
  }

  lemma SpellingsMatchThemselves(k: nat)
    requires k < |SPELLINGS|
    ensures Match(SPELLINGS[k], 0) == Some(k)
  {
    var text := SPELLINGS[k];
    assert At(text, 0, SPELLINGS[k]);
    hide At;
    var r := Longest(text, 0, |SPELLINGS|).value;
    AgreeingSpellings(text, 0, k, r);
  }

  lemma SpellingsBecomeTheirReplacements(k: nat, names: Replacements)
    requires k < |SPELLINGS|
    ensures Apply(SPELLINGS[k], names) == names[k]
  {
    var text := SPELLINGS[k];
    SpellingsStartWithTheirOnlyB(k);
    SpellingsMatchThemselves(k);
    hide Match, Apply;
    OneMatch(text, 0, k, names);
    assert text[0..0] == "" && text[|text|..|text|] == "";
  }

  /** Which spelling becomes which: with underscores the snake form of the project name, with hyphens the kebab form. */
  lemma SpellingsAreKept(name: string)
    ensures Apply("base_skeleton_rust", New(name)) == Apply("base_skeleton", New(name)) == Snake(name)
    ensures Apply("base-skeleton-rust", New(name)) == Apply("base-skeleton", New(name)) == Kebab(name)
    ensures |Snake(name)| == |Kebab(name)| == |name|
    ensures forall i | 0 <= i < |name| ::
              && Snake(name)[i] == (if name[i] == '-' then '_' else name[i])
              && Kebab(name)[i] == (if name[i] == '_' then '-' else name[i])
  {
    forall k: nat | k < |SPELLINGS| ensures Apply(SPELLINGS[k], New(name)) == New(name)[k] {
      SpellingsBecomeTheirReplacements(k, New(name));
    }
    hide Apply, Snake, Kebab;
    assert Apply(SPELLINGS[0], New(name)) == New(name)[0] && Apply(SPELLINGS[1], New(name)) == New(name)[1];
    assert Apply(SPELLINGS[2], New(name)) == New(name)[2] && Apply(SPELLINGS[3], New(name)) == New(name)[3];
  }

  /** Exactly the names that do not occur in the marker disguise none, in whatever text. */
  lemma OutsideNamesAreExact(names: Replacements)
    requires NamesOk(names)
    ensures (forall text :: MarkersStand(text, names)) <==> OutsideMarker(names)
  {
    if OutsideMarker(names) {
      forall text ensures MarkersStand(text, names) {
        OutsideNamesAreGenuine(text, names);
        MarkersStandExactly(text, names);
      }
    } else {
      var k: nat, m: nat :| k < |SPELLINGS| && At(MARKER, m, names[k]);
      var text := Disguised(k, m, names);
      DisguisesAreRewritten(k, m, names);
      MarkersStandExactly(text, names);
      hide NamesOk, At, Apply;
      SpellingIsRewriting(text, 0, 0, names);
      assert MARKER[0..] == MARKER && Rewrite(text, 0, names) == Apply(text, names);
    }
  }

  lemma OutsideNamesAreGenuine(text: string, names: Replacements)
    requires OutsideMarker(names)
    ensures Genuine(text, names)
  {
    forall p: nat | p <= |text| && SpellsMarker(text, p, 0, names) ensures At(text, p, MARKER) {
      OutsideNamesSpellPlainly(text, p, 0, names);
      assert MARKER == MARKER[0..] == text[p..][..|MARKER|] == text[p..p + |MARKER|];
    }
  }

  /** For a project name that means: the name itself does not occur in the marker. */
  lemma OutsideProjectNames(name: string)
    requires IsNameText(name)
    ensures OutsideMarker(New(name)) <==> forall m: nat :: !At(MARKER, m, name)
  {
    if c :| 0 <= c < |name| && (name[c] == '-' || name[c] == '_') {
      forall m: nat, s: string | s == name || s == Snake(name) || s == Kebab(name) ensures !At(MARKER, m, s) {
        assert s[c] == '-' || s[c] == '_';
        if At(MARKER, m, s) {
          CharactersOfOccurrence(MARKER, m, s, c);
          MarkersHaveNoSpellingCharacters(m + c);
        }
      }
    } else {
      assert Snake(name) == name && Kebab(name) == name;
      assert New(name)[0] == name;
    }
  }

  // ---------------------------------------------------------------- texts that disguise no marker for any name

  /** No spelling stands between a double bracket and the end of its line. */
  ghost predicate PlainBrackets(text: string) {
    forall p: nat, q: nat | p <= q < |text| && At(text, p, "[[") && '\n' !in text[p..q] :: Match(text, q) == None
  }

  lemma SpelledBrackets(text: string, p: nat, names: Replacements)
    requires NamesOk(names) && p <= |text| && SpellsMarker(text, p, 0, names)
    ensures p + 2 <= |text| && text[p] == '[' && text[p + 1] == '[' && SpellsMarker(text, p + 2, 2, names)
  {
    hide Match, At, NamesOk;
    if Match(text, p).Some? {
      NamesAreBehindBrackets(names, Match(text, p).value, 0);
    }
    if Match(text, p + 1).Some? {
      NamesAreBehindBrackets(names, Match(text, p + 1).value, 1);
    }
  }

  lemma PlainBracketsAreGenuine(text: string, names: Replacements)
    requires NamesOk(names) && PlainBrackets(text)
    ensures Genuine(text, names)
  {
    hide NamesOk, SpellsMarker, PlainBrackets;
    forall p: nat | p <= |text| && SpellsMarker(text, p, 0, names) ensures At(text, p, MARKER) {
      SpelledBrackets(text, p, names);
      assert text[p..p + 2] == "[[" == MARKER[..2];
      PlainLinesSpellPlainly(text, p, 2, names);
    }
  }

  lemma {:induction false} PlainLinesSpellPlainly(text: string, p: nat, m: nat, names: Replacements)
    requires PlainBrackets(text) && At(text, p, "[[") && 2 <= m <= |MARKER| && At(text, p, MARKER[..m])
    requires SpellsMarker(text, p + m, m, names)
    ensures At(text, p, MARKER)
    decreases |MARKER| - m
  {
    hide Match;
    if m < |MARKER| {
      assert text[p..p + m] == MARKER[..m];
      assert '\n' !in MARKER[..m];
      assert Match(text, p + m) == None;
      assert text[p..p + m + 1] == text[p..p + m] + [text[p + m]];
      assert MARKER[..m + 1] == MARKER[..m] + [MARKER[m]];
      PlainLinesSpellPlainly(text, p, m + 1, names);
    } else {
      assert MARKER[..m] == MARKER;
    }
  }

  // ---------------------------------------------------------------- renamed lockfiles

  lemma {:induction false} LastCharactersStayVisible(text: string, j: nat, names: Replacements)
    requires NamesOk(names) && j < |text| && !Lockfile.IsWhitespace(text[|text| - 1])
    ensures Rewrite(text, j, names) != ""
        && !Lockfile.IsWhitespace(Rewrite(text, j, names)[|Rewrite(text, j, names)| - 1])
    decreases |text| - j
  {
    hide Match, Rewrite;
    if Match(text, j).Some? {
      var k := Match(text, j).value;
      SpellingsStartWithTheirOnlyB(k);
      MatchIsReplaced(text, j, k, names);
      assert IsNameText(names[k]) && names[k][|names[k]| - 1] in names[k];
      if j + |SPELLINGS[k]| < |text| {
        LastCharactersStayVisible(text, j + |SPELLINGS[k]|, names);
      }
    } else {
      UnmatchedCharacterIsCopied(text, j, names);
      if j + 1 < |text| {
        LastCharactersStayVisible(text, j + 1, names);
      }
    }
    RewriteOfNothing(text, names);
  }

  lemma MarkersStay(text: string, names: Replacements)
    requires At(text, 0, MARKER)
    ensures At(Rewrite(text, 0, names), 0, MARKER)
  {
    var m := |MARKER|;
    forall q | 0 <= q < m ensures Match(text, q) == None {
      CharactersOfOccurrence(text, 0, MARKER, q);
      MatchesStartWithB(text, q);
    }
    hide Match;
    UnmatchedTextIsCopied(text, 0, m, names);
    assert Rewrite(text, 0, names)[0..m] == text[0..m];
  }

  lemma RenamedBlocks(b: string, names: Replacements)
    requires NamesOk(names) && Lockfile.BlockOk(b)
    ensures Apply(b + "\n", names) == Apply(b, names) + "\n" && At(Apply(b, names) + "\n", 0, MARKER)
    ensures Apply(b, names) != "" && !Lockfile.IsWhitespace(Apply(b, names)[|Apply(b, names)| - 1])
  {
    hide Match, CleanCut;
    CutsBeforeOtherCharactersAreClean(b, "\n");
    PartsAreRewrittenAlone(b, "\n", names);
    ShortTextsStay("\n", names);
    LastCharactersStayVisible(b, 0, names);
    MarkersStay(b + "\n", names);
  }

  /** Exactly the blocks without disguised markers stay well-formed. */
  lemma RenamedBlocksAreOk(b: string, names: Replacements)
    requires NamesOk(names) && Lockfile.BlockOk(b)
    ensures Lockfile.BlockOk(Apply(b, names)) <==> Genuine(b + "\n", names)
  {
    hide Match, NamesOk, SpellsMarker, At;
    var text, renamed := b + "\n", Apply(b, names);
    RenamedBlocks(b, names);
    assert Apply(text, names) == Rewrite(text, 0, names);
    hide Rewrite, Apply;
    if Genuine(text, names) {
      forall i | 1 <= i <= |renamed| ensures !At(renamed + "\n", i, MARKER) {
        if At(renamed + "\n", i, MARKER) {
          var p := MarkersComeFromMarkers(text, 0, i, names);
          OccurrencesFit(text, p, MARKER);
        }
      }
    }
    if Lockfile.BlockOk(renamed) {
      forall p: nat | p <= |text| && SpellsMarker(text, p, 0, names) ensures At(text, p, MARKER) {
        var i := SpelledMarkersAppear(text, p, names);
        OccurrencesFit(renamed + "\n", i, MARKER);
      }
    }
  }

  /** Exactly the headers without disguised markers stay without markers. */
  lemma RenamedHeadersAreOk(header: string, names: Replacements)
    requires NamesOk(names) && forall i | 0 <= i < |header| :: !At(header, i, MARKER)
    ensures var renamed := Apply(header, names);
            (forall i | 0 <= i < |renamed| :: !At(renamed, i, MARKER)) <==> Genuine(header, names)
  {
    hide Match, NamesOk, SpellsMarker, At;
    var renamed := Apply(header, names);
    assert renamed == Rewrite(header, 0, names);
    hide Rewrite, Apply;
    if Genuine(header, names) {
      forall i | 0 <= i < |renamed| ensures !At(renamed, i, MARKER) {
        if At(renamed, i, MARKER) {
          var p := MarkersComeFromMarkers(header, 0, i, names);
          OccurrencesFit(header, p, MARKER);
        }
      }
    }
    if !Genuine(header, names) {
      var p: nat :| p <= |header| && SpellsMarker(header, p, 0, names) && !At(header, p, MARKER);
      var i := SpelledMarkersAppear(header, p, names);
      OccurrencesFit(renamed, i, MARKER);
    }
  }

  lemma OccurrencesFit(text: string, i: nat, pattern: string)
    requires At(text, i, pattern)
    ensures i + |pattern| <= |text|
  {
  }

  /** Exactly the lockfiles without disguised markers are canonical after renaming. */
  lemma RenamedLockfilesAreCanonical(header: string, blocks: seq<string>, names: Replacements)
    requires Lockfile.Canonical(header, blocks) && NamesOk(names)
    ensures Lockfile.Canonical(Apply(header, names), ApplyToAll(blocks, names)) <==>
        GenuineLockfile(header, blocks, names)
  {
    hide Genuine, NamesOk, Match, Lockfile.BlockOk, At, Apply;
    RenamedHeadersAreOk(header, names);
    var renamed := ApplyToAll(blocks, names);
    forall i | 0 <= i < |blocks| ensures Lockfile.BlockOk(renamed[i]) <==> Genuine(blocks[i] + "\n", names) {
      assert blocks[i] in blocks;
      RenamedBlocksAreOk(blocks[i], names);
    }
    if GenuineLockfile(header, blocks, names) {
      forall b | b in renamed ensures Lockfile.BlockOk(b) {
        var i :| 0 <= i < |renamed| && renamed[i] == b;
        assert blocks[i] in blocks;
      }
    }
    if Lockfile.Canonical(Apply(header, names), renamed) {
      forall b | b in blocks ensures Genuine(b + "\n", names) {
        var i :| 0 <= i < |blocks| && blocks[i] == b;
        assert renamed[i] in renamed;
      }
    }
  }

  ghost predicate GenuineLockfile(header: string, blocks: seq<string>, names: Replacements) {
    Genuine(header, names) && forall b | b in blocks :: Genuine(b + "\n", names)
  }

  /** No disguise for names outside the marker, and none in lockfiles whose bracket lines hold no spelling. */
  lemma WhenLockfilesAreGenuine(header: string, blocks: seq<string>, names: Replacements)
    requires NamesOk(names)
    requires OutsideMarker(names) || (PlainBrackets(header) && forall b | b in blocks :: PlainBrackets(b + "\n"))
    ensures GenuineLockfile(header, blocks, names)
  {
    hide NamesOk, PlainBrackets, OutsideMarker, Genuine;
    if OutsideMarker(names) {
      OutsideNamesAreGenuine(header, names);
      forall b | b in blocks ensures Genuine(b + "\n", names) {
        OutsideNamesAreGenuine(b + "\n", names);
      }
    } else {
      PlainBracketsAreGenuine(header, names);
      forall b | b in blocks ensures Genuine(b + "\n", names) {
        PlainBracketsAreGenuine(b + "\n", names);
      }
    }
  }

  /**
   A generated lockfile: every block is renamed on its own, then the root block moves to its place; without a
   root package of the new name it is that error. The condition is exactly the one under which the renamed
   lockfile is canonical at all.
   */
  lemma RenamedLockfilesAreRepositioned(header: string, blocks: seq<string>, bytes: seq<bv8>, name: string)
    requires Lockfile.Canonical(header, blocks) && IsNameText(name) && GenuineLockfile(header, blocks, New(name))
    ensures var header', blocks' := Apply(header, New(name)), ApplyToAll(blocks, New(name));
            var rendered := Render("Cargo.lock", bytes, Some(Lockfile.Render(header, blocks)), name);
            if Lockfile.FirstRoot(blocks', Snake(name)) < |blocks'|
            then && rendered == Rewritten(Lockfile.Render(header', Lockfile.Moved(blocks', Snake(name))))
                 && Lockfile.Canonical(header', blocks')
            else rendered == Failed(Lockfile.NoRootPackage)
  {
    hide Apply, Lockfile.Repositioned, Lockfile.Render, Lockfile.Canonical, Lockfile.Moved, Lockfile.FirstRoot;
    hide Snake, New, GenuineLockfile;
    var names := New(name);
    ProjectNamesAreOk(name);
    RenamedLockfilesAreCanonical(header, blocks, names);
    LockfilesAreRenamedBlockByBlock(header, blocks, names);
    RootsAreBlocks(ApplyToAll(blocks, names), Snake(name));
    Lockfile.CanonicalLockfilesAreRepositioned(Apply(header, names), ApplyToAll(blocks, names), Snake(name));
  }

  lemma RootsAreBlocks(blocks: seq<string>, root: string)
    ensures Lockfile.FirstRoot(blocks, root) <= |blocks|
  {
  }

  /** A project name that spells a marker that was not there: `[[base_skeleton]]` becomes `[[package]]`. */
  lemma SpelledMarkerExample()
    ensures var text := "[[" + SPELLINGS[2] + "]]\n";
            !At(text, 0, MARKER) && Apply(text, New("package")) == MARKER
  {
    var names := New("package");
    ProjectNamesAreOk("package");
    assert names[2] == "package" && MARKER[2..9] == "package";
    DisguisesAreRewritten(2, 2, names);
    assert MARKER[..2] == "[[" && MARKER[9..] == "]]\n";
  }
}
