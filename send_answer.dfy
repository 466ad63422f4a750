/**
 * The re-chunker of bot/utils/send_answer.py: `split_code_message` cuts a
 * long Telegram-HTML answer into pieces of about `chunk_size` characters,
 * closing the tags still open at every cut and reopening them at the start
 * of the next piece.
 *
 * Tags are found with the regular expression `<(\/)?([a-zA-Z0-9\-]+)([^>]*)>`
 * searched in the window `[position, next_cut)`; `TagAt` and `FindTag` are
 * that search written out as a deterministic scanner, and `IsTagText` is the
 * same language described declaratively.
 */
module SendAnswer {
  import opened Options

  /** The open-tag list `open_tags`: tag names in order of opening. */
  type Stack = seq<string>

  // ---------------------------------------------------------------------
  // The tag pattern

  /** The class `[a-zA-Z0-9\-]` of tag-name characters. */
  predicate IsNameChar(c: char)
  {
    ('a' <= c <= 'z') || ('A' <= c <= 'Z') || ('0' <= c <= '9') || c == '-'
  }

  predicate IsName(s: string)
  {
    |s| > 0 && forall k :: 0 <= k < |s| ==> IsNameChar(s[k])
  }

  /**
   * `t` is one whole match of the pattern: `<`, an optional `/`, a non-empty
   * run of name characters, then anything but `>` up to the first `>`.
   */
  predicate IsTagText(t: string)
  {
    && |t| >= 3
    && t[0] == '<'
    && t[|t| - 1] == '>'
    && (forall k :: 0 < k < |t| - 1 ==> t[k] != '>')
    && (IsNameChar(t[1]) || (t[1] == '/' && IsNameChar(t[2])))
  }

  /** The substring `s[i..j]` is a whole tag. */
  predicate TagBetween(s: string, i: int, j: int)
    requires 0 <= i <= j <= |s|
  {
    IsTagText(s[i..j])
  }

  /** No substring of `s` is a whole tag. */
  predicate NoTagIn(s: string)
  {
    forall i, j :: 0 <= i < j <= |s| ==> !TagBetween(s, i, j)
  }

  /** A match: its span `[start, end)`, whether group 1 (`/`) matched, and group 2. */
  datatype TagMatch = TagMatch(start: nat, end: nat, closing: bool, name: string)

  /** End of the run of name characters that starts at `j`. */
  function NameEnd(s: string, j: nat): (k: nat)
    requires j <= |s|
    ensures j <= k <= |s|
    ensures forall i :: j <= i < k ==> IsNameChar(s[i])
    ensures k < |s| ==> !IsNameChar(s[k])
    decreases |s| - j
  {
    if j == |s| || !IsNameChar(s[j]) then j else NameEnd(s, j + 1)
  }

  /** Index of the first `>` at or after `j`, or `|s|` when there is none. */
  function CloseAngle(s: string, j: nat): (k: nat)
    requires j <= |s|
    ensures j <= k <= |s|
    ensures forall i :: j <= i < k ==> s[i] != '>'
    ensures k < |s| ==> s[k] == '>'
    decreases |s| - j
  {
    if j == |s| || s[j] == '>' then j else CloseAngle(s, j + 1)
  }

  /** The match of the pattern that starts at `i` in `s[..limit]`, if any. */
  function TagAt(s: string, i: nat, limit: nat): (r: Option<TagMatch>)
    requires i < limit <= |s|
    ensures r.Some? ==> r.value.start == i && i < r.value.end <= limit && s[i] == '<'
  {
    if s[i] != '<' then None
    else
      var closing := i + 2 < limit && s[i + 1] == '/' && IsNameChar(s[i + 2]);
      var nameStart := if closing then i + 2 else i + 1;
      if nameStart >= limit || !IsNameChar(s[nameStart]) then None
      else
        var nameEnd := NameEnd(s, nameStart);
        var gt := CloseAngle(s, nameEnd);
        if gt >= limit then None
        else Some(TagMatch(i, gt + 1, closing, s[nameStart..nameEnd]))
  }

  /**
   * Positions read off by the scanner spell a tag: `<` at `i`, an optional
   * `/`, a run of name characters up to `nameEnd`, and the first `>` at `gt`.
   */
  lemma {:induction false} SpellsAt(s: string, i: nat, lead: nat, nameEnd: nat, gt: nat)
    requires lead == 1 || lead == 2
    requires i + lead < nameEnd <= gt < |s|
    requires s[i] == '<' && s[gt] == '>' && (lead == 2 <==> s[i + 1] == '/')
    requires forall k :: i + lead <= k < nameEnd ==> IsNameChar(s[k])
    requires !IsNameChar(s[nameEnd])
    requires forall k :: nameEnd <= k < gt ==> s[k] != '>'
    ensures TagSpells(Tag(lead == 2, s[i + lead..nameEnd], s[i..gt + 1]))
  {
    var t := s[i..gt + 1];
    var name := s[i + lead..nameEnd];
    forall k | 0 < k < |t| - 1 ensures t[k] != '>' {
      assert t[k] == s[i + k];
    }
    assert IsTagText(t) by {
      assert t[0] == s[i] && t[|t| - 1] == s[gt] && t[1] == s[i + 1] && t[lead] == s[i + lead];
    }
    assert IsName(name) by {
      forall k | 0 <= k < |name| ensures IsNameChar(name[k]) {
        assert name[k] == s[i + lead + k];
      }
    }
    assert t[lead..lead + |name|] == name by {
      forall k | 0 <= k < |name| ensures t[lead..lead + |name|][k] == name[k] {
        assert t[lead + k] == s[i + lead + k];
      }
    }
    assert t[lead + |name|] == s[nameEnd];
  }

  /** The scanner agrees with the pattern: a match at `i` is a whole tag, with the right groups. */
  lemma {:induction false} TagAtSound(s: string, i: nat, limit: nat)
    requires i < limit <= |s|
    requires TagAt(s, i, limit).Some?
    ensures var m := TagAt(s, i, limit).value; TagSpells(Tag(m.closing, m.name, s[i..m.end]))
  {
    var closing := i + 2 < limit && s[i + 1] == '/' && IsNameChar(s[i + 2]);
    var lead := if closing then 2 else 1;
    var nameEnd := NameEnd(s, i + lead);
    var gt := CloseAngle(s, nameEnd);
    var m := TagAt(s, i, limit).value;
    assert m == TagMatch(i, gt + 1, closing, s[i + lead..nameEnd]);
    SpellsAt(s, i, lead, nameEnd, gt);
    assert Tag(m.closing, m.name, s[i..m.end]) == Tag(lead == 2, s[i + lead..nameEnd], s[i..gt + 1]);
  }

  /** ... and every whole tag inside the window is found by the scanner at its start. */
  lemma {:induction false} TagAtComplete(s: string, i: nat, j: nat, limit: nat)
    requires i < j <= limit <= |s|
    requires IsTagText(s[i..j])
    ensures TagAt(s, i, limit).Some? && TagAt(s, i, limit).value.end == j
  {
    var t := s[i..j];
    assert s[i] == t[0] && s[i + 1] == t[1] && s[i + 2] == t[2];
    assert s[j - 1] == t[|t| - 1];
    forall k | i < k < j - 1 ensures s[k] != '>' {
      assert s[k] == t[k - i];
    }
    var closing := i + 2 < limit && s[i + 1] == '/' && IsNameChar(s[i + 2]);
    var nameStart := if closing then i + 2 else i + 1;
    var nameEnd := NameEnd(s, nameStart);
    var gt := CloseAngle(s, nameEnd);
  }

  /**
   * `tag_pattern.search(s, pos, limit)`: the leftmost match that starts at or
   * after `pos` and ends at or before `limit`.
   */
  function FindTag(s: string, pos: nat, limit: nat): (r: Option<TagMatch>)
    requires pos <= limit <= |s|
    ensures r.Some? ==> pos <= r.value.start < r.value.end <= limit
    ensures r.Some? ==> TagAt(s, r.value.start, limit) == r
    ensures r.Some? ==> forall i :: pos <= i < r.value.start ==> TagAt(s, i, limit).None?
    ensures r.None? ==> forall i :: pos <= i < limit ==> TagAt(s, i, limit).None?
    decreases limit - pos
  {
    if pos == limit then None
    else if TagAt(s, pos, limit).Some? then TagAt(s, pos, limit)
    else FindTag(s, pos + 1, limit)
  }

  /** Text the scanner skipped over, between `pos` and its next match, holds no whole tag. */
  lemma {:induction false} SkippedTextHasNoTag(s: string, pos: nat, upTo: nat, limit: nat)
    requires pos <= upTo <= limit <= |s|
    requires forall i :: pos <= i < upTo ==> TagAt(s, i, limit).None?
    ensures NoTagIn(s[pos..upTo])
  {
    var p := s[pos..upTo];
    forall i, j | 0 <= i < j <= |p| ensures !TagBetween(p, i, j) {
      assert p[i..j] == s[pos + i..pos + j] by {
        forall k | 0 <= k < j - i ensures p[i..j][k] == s[pos + i..pos + j][k] {
          assert p[i + k] == s[pos + i + k];
        }
      }
      if IsTagText(p[i..j]) {
        TagAtComplete(s, pos + i, pos + j, limit);
      }
    }
  }

  // ---------------------------------------------------------------------
  // The open-tag list and the helpers `close_open_tags` / `reopen_tags`

  /** Index of the first occurrence of `x` in `s` (`list.index`). */
  function IndexIn(s: Stack, x: string): (i: nat)
    requires x in s
    ensures i < |s| && s[i] == x
    ensures x !in s[..i]
  {
    if s[0] == x then 0 else 1 + IndexIn(s[1..], x)
  }

  /** `list.remove(x)`: drops the first occurrence of `x`. */
  function RemoveFirst(s: Stack, x: string): (r: Stack)
    requires x in s
    ensures |r| == |s| - 1
    ensures multiset(r) == multiset(s) - multiset{x}
  {
    var i := IndexIn(s, x);
    assert s == s[..i] + [x] + s[i + 1..];
    s[..i] + s[i + 1..]
  }

  /** The effect of one matched tag on `open_tags` (send_answer.py:79-83). */
  function ApplyTag(s: Stack, closing: bool, name: string): (r: Stack)
    ensures !closing ==> multiset(r) == multiset(s) + multiset{name}
    ensures closing ==> multiset(r) == multiset(s) - multiset{name}
  {
    if closing then (if name in s then RemoveFirst(s, name) else s)
    else s + [name]
  }

  /** An opening tag pushes; a closing tag drops the bottom-most entry of its name; a stray one changes nothing. */
  lemma {:induction false} ApplyTagEffect(s: Stack, closing: bool, name: string)
    ensures var r := ApplyTag(s, closing, name);
      && (!closing ==> r == s + [name])
      && (closing && name in s ==>
            exists i :: 0 <= i < |s| && s[i] == name && name !in s[..i] && r == s[..i] + s[i + 1..])
      && (closing && name !in s ==> r == s)
  {
    if closing && name in s {
      var i := IndexIn(s, name);
      assert ApplyTag(s, closing, name) == s[..i] + s[i + 1..];
    }
  }

  /** `<name>` as `reopen_tags` writes it: `blockquote` comes back as `blockquote expandable`. */
  function Opener(name: string): string
  {
    "<" + (if name == "blockquote" then "blockquote expandable" else name) + ">"
  }

  function Closer(name: string): string
  {
    "</" + name + ">"
  }

  /** `reopen_tags()`: an opener per open tag, in order of opening. */
  function ReopenTags(s: Stack): (r: string)
    ensures |r| >= 2 * |s|
  {
    if s == [] then "" else ReopenTags(s[..|s| - 1]) + Opener(s[|s| - 1])
  }

  /** `close_open_tags()`: a closer per open tag, innermost first. */
  function CloseTags(s: Stack): (r: string)
    ensures |r| >= 3 * |s|
  {
    if s == [] then "" else Closer(s[|s| - 1]) + CloseTags(s[..|s| - 1])
  }

  // ---------------------------------------------------------------------
  // What a chunk is made of

  /** One tag as it was copied into a chunk. */
  datatype Tag = Tag(closing: bool, name: string, text: string)

  /** A stretch of a chunk's body: tag-free text copied as it is, or one whole tag. */
  datatype Piece = Plain(text: string) | Markup(tag: Tag)

  /** The tag's text spells out its name and kind the way the pattern's groups read them. */
  predicate TagSpells(t: Tag)
  {
    var lead := if t.closing then 2 else 1;
    && IsTagText(t.text)
    && t.closing == (t.text[1] == '/')
    && IsName(t.name)
    && lead + |t.name| < |t.text|
    && t.text[lead..lead + |t.name|] == t.name
    && !IsNameChar(t.text[lead + |t.name|])
  }

  predicate WellFormed(p: Piece)
  {
    match p
    case Plain(text) => text != [] && NoTagIn(text)
    case Markup(t) => TagSpells(t)
  }

  function PieceText(p: Piece): string
  {
    match p
    case Plain(text) => text
    case Markup(t) => t.text
  }

  function Flatten(ps: seq<Piece>): string
  {
    if ps == [] then "" else Flatten(ps[..|ps| - 1]) + PieceText(ps[|ps| - 1])
  }

  function ApplyPiece(s: Stack, p: Piece): Stack
  {
    match p
    case Plain(_) => s
    case Markup(t) => ApplyTag(s, t.closing, t.name)
  }

  /** The open-tag list after the pieces, starting from `s`. */
  function Effect(s: Stack, ps: seq<Piece>): Stack
  {
    if ps == [] then s else ApplyPiece(Effect(s, ps[..|ps| - 1]), ps[|ps| - 1])
  }

  /** Concatenated bodies of several chunks. */
  function Bodies(parts: seq<seq<Piece>>): string
  {
    if parts == [] then "" else Bodies(parts[..|parts| - 1]) + Flatten(parts[|parts| - 1])
  }

  // ---------------------------------------------------------------------
  // How the loop reads a window of the text

  /**
   * The pieces the loop reads from `pos` with the window ending at `limit`
   * (clipped to the text, as `search` and slicing clip it): the text before
   * the next match as one tag-free piece, the match as one tag, and so on; with
   * no match left, the rest of the window as one piece (send_answer.py:59-86).
   */
  function Tokens(t: string, pos: nat, limit: int): seq<Piece>
    decreases |t| - pos
  {
    var end := if limit < |t| then limit else |t|;
    if end <= pos then []
    else
      match FindTag(t, pos, end)
      case None => [Plain(t[pos..end])]
      case Some(m) => Extend([], t[pos..m.start]) + [Markup(Tag(m.closing, m.name, t[m.start..m.end]))]
                      + Tokens(t, m.end, limit)
  }

  /** The pieces read from a window spell the window exactly, and each is a tag-free stretch or one whole tag. */
  lemma {:induction false} TokensSpell(t: string, pos: nat, limit: nat)
    requires pos <= limit <= |t|
    ensures Flatten(Tokens(t, pos, limit)) == t[pos..limit]
    ensures AllWellFormed(Tokens(t, pos, limit))
    decreases limit - pos
  {
    if pos < limit {
      var r := FindTag(t, pos, limit);
      if r.None? {
        TokensNoMatch(t, pos, limit);
        SkippedTextHasNoTag(t, pos, limit, limit);
        PlainPiece(t[pos..limit]);
      } else {
        TokensSpell(t, r.value.end, limit);
        TokensSpellMatch(t, pos, limit, r.value);
      }
    }
  }

  /** The window up to and including a match spells that stretch, in well-formed pieces. */
  lemma {:induction false} MatchHeadSpell(t: string, pos: nat, limit: nat, m: TagMatch)
    requires pos < limit <= |t| && FindTag(t, pos, limit) == Some(m)
    ensures var head := Extend([], t[pos..m.start]) + [Markup(Tag(m.closing, m.name, t[m.start..m.end]))];
      Flatten(head) == t[pos..m.end] && AllWellFormed(head)
  {
    SliceSplit(t, pos, m.start, m.end);
    assert NoTagIn(t[pos..m.start]) by {
      SkippedTextHasNoTag(t, pos, m.start, limit);
    }
    assert TagSpells(Tag(m.closing, m.name, t[m.start..m.end])) by {
      TagAtSound(t, m.start, limit);
    }
    HeadSpell(t[pos..m.start], Tag(m.closing, m.name, t[m.start..m.end]));
  }

  /** A tag-free stretch followed by a whole tag, as pieces, spells the two texts in turn. */
  lemma {:induction false} HeadSpell(pre: string, tag: Tag)
    requires NoTagIn(pre) && TagSpells(tag)
    ensures var head := Extend([], pre) + [Markup(tag)];
      Flatten(head) == pre + tag.text && AllWellFormed(head)
  {
    PlainPiece(pre);
    MarkupPiece(tag);
    SpellConcat(Extend([], pre), [Markup(tag)], pre, tag.text);
  }

  /** A whole tag on its own is one well-formed piece spelling it. */
  lemma {:induction false} MarkupPiece(tag: Tag)
    requires TagSpells(tag)
    ensures Flatten([Markup(tag)]) == tag.text && AllWellFormed([Markup(tag)])
  {
    assert [Markup(tag)][..0] == [];
    SingleWellFormed(Markup(tag));
  }

  /** One step of `TokensSpell`: the pieces up to a match, then the rest of the window. */
  lemma {:induction false} TokensSpellMatch(t: string, pos: nat, limit: nat, m: TagMatch)
    requires pos < limit <= |t| && FindTag(t, pos, limit) == Some(m)
    requires Flatten(Tokens(t, m.end, limit)) == t[m.end..limit] && AllWellFormed(Tokens(t, m.end, limit))
    ensures Flatten(Tokens(t, pos, limit)) == t[pos..limit]
    ensures AllWellFormed(Tokens(t, pos, limit))
  {
    SliceSplit(t, pos, m.end, limit);
    var head := Extend([], t[pos..m.start]) + [Markup(Tag(m.closing, m.name, t[m.start..m.end]))];
    TokensAtMatch(t, pos, limit, m);
    MatchHeadSpell(t, pos, limit, m);
    SpellConcat(head, Tokens(t, m.end, limit), t[pos..m.end], t[m.end..limit]);
  }

  /** A slice is the slices on either side of any point inside it. */
  lemma {:induction false} SliceSplit(t: string, i: nat, j: nat, k: nat)
    requires i <= j <= k <= |t|
    ensures t[i..k] == t[i..j] + t[j..k]
  {
  }

  /** Pieces spelling `a` followed by pieces spelling `b` spell `a + b`. */
  lemma {:induction false} SpellConcat(ps: seq<Piece>, qs: seq<Piece>, a: string, b: string)
    requires Flatten(ps) == a && AllWellFormed(ps)
    requires Flatten(qs) == b && AllWellFormed(qs)
    ensures Flatten(ps + qs) == a + b && AllWellFormed(ps + qs)
  {
    FlattenAppend(ps, qs);
    AllWellFormedAppend(ps, qs);
  }

  /** The optional tag-free piece before a match spells that stretch and is well formed. */
  lemma {:induction false} PlainPiece(plain: string)
    requires NoTagIn(plain)
    ensures Flatten(Extend([], plain)) == plain
    ensures AllWellFormed(Extend([], plain))
  {
    if plain != [] {
      var ps := [Plain(plain)];
      assert Extend([], plain) == ps;
      assert ps[..0] == [];
      assert WellFormed(Plain(plain));
      SingleWellFormed(Plain(plain));
    }
  }

  /** The window after a match: the pieces up to the match, the match, then the rest of the window. */
  lemma {:induction false} TokensAtMatch(t: string, pos: nat, limit: nat, m: TagMatch)
    requires pos < limit <= |t| && FindTag(t, pos, limit) == Some(m)
    ensures Tokens(t, pos, limit)
      == Extend([], t[pos..m.start]) + [Markup(Tag(m.closing, m.name, t[m.start..m.end]))] + Tokens(t, m.end, limit)
  {
    var end := if limit < |t| then limit else |t|;
    assert end == limit;
  }

  /** An empty window is read as no pieces. */
  lemma {:induction false} TokensEmpty(t: string, pos: nat)
    requires pos <= |t|
    ensures Tokens(t, pos, pos) == []
  {
    var end := if pos < |t| then pos else |t|;
    assert end == pos;
  }

  /** A window without a match is read as one tag-free piece. */
  lemma {:induction false} TokensNoMatch(t: string, pos: nat, limit: nat)
    requires pos < limit <= |t| && FindTag(t, pos, limit).None?
    ensures Tokens(t, pos, limit) == [Plain(t[pos..limit])]
  {
    var end := if limit < |t| then limit else |t|;
    assert end == limit;
  }

  /**
   * Every chunk's pieces are what the loop reads from that chunk's stretch of
   * the text: chunk `k` covers `[|Bodies(parts[..k])|, |Bodies(parts[..k + 1])|)`.
   */
  predicate ChunksScanned(text: string, parts: seq<seq<Piece>>)
  {
    forall k {:trigger parts[k]} :: 0 <= k < |parts| ==> parts[k] == Tokens(text, |Bodies(parts[..k])|, |Bodies(parts[..k + 1])|)
  }

  /**
   * A chunk that started with `before` open: it is the reopen prefix, a
   * non-empty body of well-formed pieces, and the closers of the tags the
   * body left open.
   */
  predicate ChunkOf(chunk: string, before: Stack, ps: seq<Piece>, after: Stack)
  {
    && after == Effect(before, ps)
    && AllWellFormed(ps)
    && Flatten(ps) != []
    && chunk == ReopenTags(before) + Flatten(ps) + CloseTags(after)
  }

  /**
   * `chunks` is `text` split with budget `size`: the chunks are cut as
   * `CutsInto` says, and each body is what the tag scanner reads from its
   * stretch of the text.
   */
  predicate SplitsInto(text: string, size: int, chunks: seq<string>, stacks: seq<Stack>, parts: seq<seq<Piece>>)
  {
    CutsInto(text, size, chunks, stacks, parts) && ChunksScanned(text, parts)
  }

  /**
   * Chunk `k` starts with the tags `stacks[k]` open and ends with
   * `stacks[k + 1]` open, the first starts with none, every chunk but the
   * last holds exactly `size` characters before its closers and the last at
   * most `size`, and the bodies put back together give `text` exactly.
   */
  predicate CutsInto(text: string, size: int, chunks: seq<string>, stacks: seq<Stack>, parts: seq<seq<Piece>>)
  {
    && |stacks| == |chunks| + 1
    && |parts| == |chunks|
    && stacks[0] == []
    && (forall k :: 0 <= k < |chunks| ==> ChunkAt(size, chunks, stacks, parts, k))
    && Bodies(parts) == text
  }

  /** Chunk `k` of a split: its pieces and, before its closers, `size` characters or fewer for the last. */
  predicate ChunkAt(size: int, chunks: seq<string>, stacks: seq<Stack>, parts: seq<seq<Piece>>, k: int)
  {
    && 0 <= k < |chunks| && |stacks| == |chunks| + 1 && |parts| == |chunks|
    && ChunkOf(chunks[k], stacks[k], parts[k], stacks[k + 1])
    && |chunks[k]| - |CloseTags(stacks[k + 1])| <= size
    && (k < |chunks| - 1 ==> |chunks[k]| - |CloseTags(stacks[k + 1])| == size)
  }

  // ---------------------------------------------------------------------
  // Balanced chunks: the reopen prefix and the closer suffix read as tags

  /** Every entry of the open-tag list is a tag name. */
  predicate AllNames(s: Stack)
  {
    forall x :: x in s ==> IsName(x)
  }

  /** The reopen prefix as pieces: one opener per open tag, in order of opening. */
  function OpeningPieces(s: Stack): (ps: seq<Piece>)
    ensures |ps| == |s|
  {
    if s == [] then [] else OpeningPieces(s[..|s| - 1]) + [Markup(Tag(false, s[|s| - 1], Opener(s[|s| - 1])))]
  }

  /** The closer suffix as pieces: one closer per open tag, innermost first. */
  function ClosingPieces(s: Stack): (ps: seq<Piece>)
    ensures |ps| == |s|
  {
    if s == [] then [] else [Markup(Tag(true, s[|s| - 1], Closer(s[|s| - 1])))] + ClosingPieces(s[..|s| - 1])
  }

  /** An opener written by `reopen_tags` is read back by the pattern as an opener of the same name. */
  lemma {:induction false} OpenerSpells(n: string)
    requires IsName(n)
    ensures TagSpells(Tag(false, n, Opener(n)))
  {
    var t := Opener(n);
    if n == "blockquote" {
      var inner := "blockquote expandable";
      assert t == "<" + inner + ">";
      assert forall k :: 0 <= k < |inner| ==> inner[k] != '>';
      assert t[1..11] == inner[..10] == n;
      assert t[11] == ' ';
    } else {
      assert t == "<" + n + ">";
      assert t[1..1 + |n|] == n;
      assert forall k :: 0 < k < |t| - 1 ==> t[k] == n[k - 1];
    }
  }

  /** A closer written by `close_open_tags` is read back as a closer of the same name. */
  lemma {:induction false} CloserSpells(n: string)
    requires IsName(n)
    ensures TagSpells(Tag(true, n, Closer(n)))
  {
    var t := Closer(n);
    assert t[2..2 + |n|] == n;
  }

  lemma {:induction false} FlattenAppend(a: seq<Piece>, b: seq<Piece>)
    ensures Flatten(a + b) == Flatten(a) + Flatten(b)
  {
    if b == [] {
      assert a + b == a;
    } else {
      var b', last := b[..|b| - 1], b[|b| - 1];
      FlattenAppend(a, b');
      assert (a + b)[..|a + b| - 1] == a + b';
      assert (a + b)[|a + b| - 1] == last;
      AppendBoth(Flatten(a), Flatten(b'), PieceText(last), Flatten(a + b'));
    }
  }

  lemma {:induction false} EffectAppend(s: Stack, a: seq<Piece>, b: seq<Piece>)
    ensures Effect(s, a + b) == Effect(Effect(s, a), b)
  {
    if b == [] {
      assert a + b == a;
    } else {
      EffectAppend(s, a, b[..|b| - 1]);
      assert (a + b)[..|a + b| - 1] == a + b[..|b| - 1];
    }
  }

  lemma {:induction false} AllWellFormedAppend(a: seq<Piece>, b: seq<Piece>)
    requires AllWellFormed(a) && AllWellFormed(b)
    ensures AllWellFormed(a + b)
  {
    forall k | 0 <= k < |a + b| ensures WellFormed((a + b)[k]) {
      if k < |a| { assert (a + b)[k] == a[k]; } else { assert (a + b)[k] == b[k - |a|]; }
    }
  }

  lemma {:induction false} SingleWellFormed(p: Piece)
    requires WellFormed(p)
    ensures AllWellFormed([p])
  {
  }

  lemma {:induction false} ReopenText(s: Stack)
    ensures Flatten(OpeningPieces(s)) == ReopenTags(s)
  {
    if s != [] {
      ReopenText(s[..|s| - 1]);
      var ps := OpeningPieces(s);
      assert ps[..|ps| - 1] == OpeningPieces(s[..|s| - 1]);
    }
  }

  lemma {:induction false} ReopenEffect(s: Stack)
    ensures Effect([], OpeningPieces(s)) == s
  {
    if s != [] {
      var s' := s[..|s| - 1];
      ReopenEffect(s');
      var ps := OpeningPieces(s);
      assert ps[..|ps| - 1] == OpeningPieces(s');
      assert s' + [s[|s| - 1]] == s;
    }
  }

  lemma {:induction false} ReopenWellFormed(s: Stack)
    requires AllNames(s)
    ensures AllWellFormed(OpeningPieces(s))
  {
    if s != [] {
      var s', n := s[..|s| - 1], s[|s| - 1];
      assert AllNames(s') by {
        assert forall x :: x in s' ==> x in s;
      }
      ReopenWellFormed(s');
      var o := Markup(Tag(false, n, Opener(n)));
      OpenerSpells(n);
      SingleWellFormed(o);
      AllWellFormedAppend(OpeningPieces(s'), [o]);
    }
  }

  /** Read as tags, the reopen prefix rebuilds the open-tag list from nothing. */
  lemma {:induction false} ReopenPieces(s: Stack)
    requires AllNames(s)
    ensures Flatten(OpeningPieces(s)) == ReopenTags(s)
    ensures AllWellFormed(OpeningPieces(s))
    ensures Effect([], OpeningPieces(s)) == s
  {
    ReopenText(s);
    ReopenWellFormed(s);
    ReopenEffect(s);
  }

  /**
   * Read as tags, the closer suffix of `s` empties any open-tag list holding
   * the same names as `s`, whatever their order.
   */
  lemma {:induction false} ClosePieces(u: Stack, s: Stack)
    requires AllNames(s) && multiset(u) == multiset(s)
    ensures Flatten(ClosingPieces(s)) == CloseTags(s)
    ensures AllWellFormed(ClosingPieces(s))
    ensures Effect(u, ClosingPieces(s)) == []
  {
    if s == [] {
      assert |multiset(u)| == 0;
    } else {
      var s', n := s[..|s| - 1], s[|s| - 1];
      assert s == s' + [n];
      assert AllNames(s') by {
        assert forall x :: x in s' ==> x in s;
      }
      assert n in multiset(u);
      var u' := RemoveFirst(u, n);
      assert multiset(u') == multiset(s');
      ClosePieces(u', s');
      var c := Markup(Tag(true, n, Closer(n)));
      var rest := ClosingPieces(s');
      assert ClosingPieces(s) == [c] + rest;
      assert [c][..0] == [];
      assert Flatten(ClosingPieces(s)) == CloseTags(s) by {
        FlattenAppend([c], rest);
        assert Flatten([c]) == Closer(n);
      }
      assert Effect(u, ClosingPieces(s)) == [] by {
        EffectAppend(u, [c], rest);
        assert Effect(u, [c]) == u';
      }
      assert AllWellFormed(ClosingPieces(s)) by {
        CloserSpells(n);
        SingleWellFormed(c);
        AllWellFormedAppend([c], rest);
      }
    }
  }

  /** Tags only ever push names, so the open-tag list holds names only. */
  lemma {:induction false} EffectNames(s: Stack, ps: seq<Piece>)
    requires AllNames(s) && AllWellFormed(ps)
    ensures AllNames(Effect(s, ps))
  {
    if ps != [] {
      var ps' := ps[..|ps| - 1];
      assert AllWellFormed(ps') by {
        forall k | 0 <= k < |ps'| ensures WellFormed(ps'[k]) { assert ps'[k] == ps[k]; }
      }
      EffectNames(s, ps');
      var u := Effect(s, ps');
      var p := ps[|ps| - 1];
      assert WellFormed(p);
      if p.Markup? && p.tag.closing && p.tag.name in u {
        var r := RemoveFirst(u, p.tag.name);
        forall x | x in r ensures IsName(x) {
          assert x in multiset(r);
        }
      }
    }
  }

  /**
   * Each chunk is balanced: read as tags from an empty open-tag list, its
   * reopen prefix, body and closer suffix leave nothing open.
   */
  lemma {:induction false} ChunkBalanced(chunk: string, before: Stack, ps: seq<Piece>, after: Stack)
    requires ChunkOf(chunk, before, ps, after) && AllNames(before)
    ensures var qs := OpeningPieces(before) + ps + ClosingPieces(after);
      Flatten(qs) == chunk && AllWellFormed(qs) && Effect([], qs) == []
  {
    var o, c := OpeningPieces(before), ClosingPieces(after);
    EffectNames(before, ps);
    ReopenPieces(before);
    ClosePieces(after, after);
    FlattenAppend(o, ps);
    FlattenAppend(o + ps, c);
    EffectAppend([], o, ps);
    EffectAppend([], o + ps, c);
    AllWellFormedAppend(o, ps);
    AllWellFormedAppend(o + ps, c);
  }

  /** The open-tag lists at the cuts of a split hold names only. */
  lemma {:induction false} SplitStacksAreNames(text: string, size: int, chunks: seq<string>, stacks: seq<Stack>,
                                               parts: seq<seq<Piece>>, k: nat)
    requires SplitsInto(text, size, chunks, stacks, parts)
    requires k <= |chunks|
    ensures AllNames(stacks[k])
  {
    if k > 0 {
      SplitStacksAreNames(text, size, chunks, stacks, parts, k - 1);
      assert ChunkAt(size, chunks, stacks, parts, k - 1);
      EffectNames(stacks[k - 1], parts[k - 1]);
    }
  }

  /**
   * Every chunk of a split is balanced: the reopen prefix as openers, the
   * pieces the scanner reads from the chunk's stretch of the text, and the
   * closers spell the chunk, each piece is a tag-free stretch or one whole
   * tag, and read from an empty open-tag list they leave nothing open.
   */
  lemma {:induction false} SplitChunksBalanced(text: string, size: int, chunks: seq<string>, stacks: seq<Stack>,
                                               parts: seq<seq<Piece>>, k: nat)
    requires SplitsInto(text, size, chunks, stacks, parts)
    requires k < |chunks|
    ensures var qs := OpeningPieces(stacks[k])
                      + Tokens(text, |Bodies(parts[..k])|, |Bodies(parts[..k + 1])|)
                      + ClosingPieces(stacks[k + 1]);
      Flatten(qs) == chunks[k] && AllWellFormed(qs) && Effect([], qs) == []
  {
    SplitStacksAreNames(text, size, chunks, stacks, parts, k);
    assert ChunkAt(size, chunks, stacks, parts, k);
    assert parts[k] == Tokens(text, |Bodies(parts[..k])|, |Bodies(parts[..k + 1])|);
    ChunkBalanced(chunks[k], stacks[k], parts[k], stacks[k + 1]);
  }

  /**
   * Chunk `k` of a split, in terms of the text alone: it covers the stretch
   * `text[s..e]`, which it holds between the reopen prefix of the tags open
   * before it and the closers of the tags the scanner's reading of that
   * stretch leaves open; every chunk but the last holds exactly `size`
   * characters before its closers, and the last ends the text.
   */
  lemma {:induction false} ChunkSpan(text: string, size: int, chunks: seq<string>, stacks: seq<Stack>,
                                     parts: seq<seq<Piece>>, k: nat)
    requires SplitsInto(text, size, chunks, stacks, parts)
    requires k < |chunks|
    ensures var s, e := |Bodies(parts[..k])|, |Bodies(parts[..k + 1])|;
      && s < e <= |text|
      && stacks[k + 1] == Effect(stacks[k], Tokens(text, s, e))
      && chunks[k] == ReopenTags(stacks[k]) + text[s..e] + CloseTags(stacks[k + 1])
      && (k < |chunks| - 1 ==> |ReopenTags(stacks[k])| + (e - s) == size)
      && (k == |chunks| - 1 ==> e == |text| && |ReopenTags(stacks[k])| + (e - s) <= size)
  {
    assert ChunkAt(size, chunks, stacks, parts, k);
    assert parts[k] == Tokens(text, |Bodies(parts[..k])|, |Bodies(parts[..k + 1])|);
    StretchOf(parts, k);
  }

  /**
   * A split is unique: two splits of the same text with the same budget have
   * the same chunks, so `SplitsInto` pins down what the loop must emit.
   */
  lemma {:induction false} SplitUnique(text: string, size: int,
                                       c1: seq<string>, st1: seq<Stack>, p1: seq<seq<Piece>>,
                                       c2: seq<string>, st2: seq<Stack>, p2: seq<seq<Piece>>)
    requires SplitsInto(text, size, c1, st1, p1) && SplitsInto(text, size, c2, st2, p2)
    ensures c1 == c2
  {
    if |c1| > 0 {
      ChunkSpan(text, size, c1, st1, p1, 0);
    }
    if |c2| > 0 {
      ChunkSpan(text, size, c2, st2, p2, 0);
    }
    var n := if |c1| < |c2| then |c1| else |c2|;
    if n > 0 {
      SplitsAgree(text, size, c1, st1, p1, c2, st2, p2, n - 1);
      LastTogether(text, size, c1, st1, p1, c2, st2, p2, n - 1);
    }
    SplitsAgree(text, size, c1, st1, p1, c2, st2, p2, n);
    assert c1 == c1[..n] && c2 == c2[..n];
  }

  /** Two splits of the same text agree on their first `k` chunks, and on where chunk `k` starts. */
  lemma {:induction false} SplitsAgree(text: string, size: int,
                                       c1: seq<string>, st1: seq<Stack>, p1: seq<seq<Piece>>,
                                       c2: seq<string>, st2: seq<Stack>, p2: seq<seq<Piece>>, k: nat)
    requires SplitsInto(text, size, c1, st1, p1) && SplitsInto(text, size, c2, st2, p2)
    requires k <= |c1| && k <= |c2|
    ensures st1[k] == st2[k] && |Bodies(p1[..k])| == |Bodies(p2[..k])| && c1[..k] == c2[..k]
    decreases k
  {
    if k == 0 {
      assert p1[..0] == [] && p2[..0] == [];
    } else {
      SplitsAgree(text, size, c1, st1, p1, c2, st2, p2, k - 1);
      LastTogether(text, size, c1, st1, p1, c2, st2, p2, k - 1);
      ChunkSpan(text, size, c1, st1, p1, k - 1);
      ChunkSpan(text, size, c2, st2, p2, k - 1);
      assert |Bodies(p1[..k])| == |Bodies(p2[..k])|;
      assert st1[k] == st2[k];
      assert c1[k - 1] == c2[k - 1];
      SnocSlice(c1, k);
      SnocSlice(c2, k);
    }
  }

  /** The first `k` elements are the first `k - 1` followed by element `k - 1`. */
  lemma {:induction false} SnocSlice<T>(s: seq<T>, k: nat)
    requires 0 < k <= |s|
    ensures s[..k] == s[..k - 1] + [s[k - 1]]
  {
  }

  /** Where two splits agree up to chunk `k`, chunk `k` is the last of one exactly when it is the last of the other. */
  lemma {:induction false} LastTogether(text: string, size: int,
                                        c1: seq<string>, st1: seq<Stack>, p1: seq<seq<Piece>>,
                                        c2: seq<string>, st2: seq<Stack>, p2: seq<seq<Piece>>, k: nat)
    requires SplitsInto(text, size, c1, st1, p1) && SplitsInto(text, size, c2, st2, p2)
    requires k < |c1| && k < |c2|
    requires st1[k] == st2[k] && |Bodies(p1[..k])| == |Bodies(p2[..k])|
    ensures k == |c1| - 1 <==> k == |c2| - 1
  {
    ChunkSpan(text, size, c1, st1, p1, k);
    ChunkSpan(text, size, c2, st2, p2, k);
    if k < |c1| - 1 {
      ChunkSpan(text, size, c1, st1, p1, k + 1);
    }
    if k < |c2| - 1 {
      ChunkSpan(text, size, c2, st2, p2, k + 1);
    }
  }

  /** Chunk `k`'s body is the stretch of the bodies that starts where the earlier ones end. */
  lemma {:induction false} StretchOf(parts: seq<seq<Piece>>, k: nat)
    requires k < |parts|
    ensures var s, e := |Bodies(parts[..k])|, |Bodies(parts[..k + 1])|;
      && s + |Flatten(parts[k])| == e <= |Bodies(parts)|
      && Bodies(parts)[s..e] == Flatten(parts[k])
      && (k == |parts| - 1 ==> e == |Bodies(parts)|)
  {
    assert parts[..k + 1] == parts[..k] + [parts[k]];
    BodiesAppend(parts[..k], parts[k]);
    BodiesPrefix(parts, k + 1);
    SliceOfPrefix(Bodies(parts), Bodies(parts[..k]), Flatten(parts[k]));
    if k == |parts| - 1 {
      assert parts[..k + 1] == parts;
    }
  }

  /** The bodies of the first `j` chunks are the start of the text. */
  lemma {:induction false} BodiesPrefix(parts: seq<seq<Piece>>, j: nat)
    requires j <= |parts|
    ensures |Bodies(parts[..j])| <= |Bodies(parts)| && Bodies(parts)[..|Bodies(parts[..j])|] == Bodies(parts[..j])
    decreases |parts|
  {
    if j == |parts| {
      assert parts[..j] == parts;
    } else {
      var init := parts[..|parts| - 1];
      BodiesPrefix(init, j);
      assert init[..j] == parts[..j];
    }
  }

  /** Where a text starts with `a + b`, the stretch after `a` of length `|b|` is `b`. */
  lemma {:induction false} SliceOfPrefix(text: string, a: string, b: string)
    requires |a + b| <= |text| && text[..|a + b|] == a + b
    ensures text[|a|..|a| + |b|] == b
  {
    assert text[|a|..|a| + |b|] == text[..|a + b|][|a|..];
  }

  /**
   * A text shorter than the budget gives one chunk: the text itself followed
   * by the closers of the tags the scanner's reading of it leaves open.
   */
  lemma {:induction false} ShortTextOneChunk(text: string, size: int, chunks: seq<string>, stacks: seq<Stack>,
                                             parts: seq<seq<Piece>>)
    requires SplitsInto(text, size, chunks, stacks, parts)
    requires |text| < size
    ensures text == [] ==> chunks == []
    ensures text != [] ==> chunks == [text + CloseTags(Effect([], Tokens(text, 0, |text|)))]
  {
    if |chunks| >= 2 {
      assert ChunkAt(size, chunks, stacks, parts, 0);
      BodiesFirst(parts);
      assert false;
    } else if |chunks| == 1 {
      assert ChunkAt(size, chunks, stacks, parts, 0);
      assert parts[..0] == [] && parts[..1] == parts;
      assert Bodies(parts) == Flatten(parts[0]);
      assert parts[0] == Tokens(text, 0, |text|);
      assert ReopenTags(stacks[0]) == [];
      assert chunks == [chunks[0]];
    }
  }

  /** A chunk that is not the last ends before the text does. */
  lemma {:induction false} InnerChunkEndsEarly(text: string, size: int, chunks: seq<string>, stacks: seq<Stack>,
                                               parts: seq<seq<Piece>>, k: nat)
    requires SplitsInto(text, size, chunks, stacks, parts)
    requires k < |chunks|
    ensures k < |chunks| - 1 ==> |Bodies(parts[..k + 1])| < |text|
  {
    if k < |chunks| - 1 {
      ChunkSpan(text, size, chunks, stacks, parts, k + 1);
    }
  }

  /**
   * A whole tag that straddles `next_cut` is not matched, since the search
   * stops at `next_cut`; it is copied as text and torn across chunks:
   * `'<b>xy</b>'` with `chunk_size = 5` splits into `'<b>xy</b>'`,
   * `'<b></</b>'` and `'<b>b></b>'`.
   */
  lemma {:induction false} TornClosingTag(chunks: seq<string>, stacks: seq<Stack>, parts: seq<seq<Piece>>)
    requires SplitsInto("<b>xy</b>", 5, chunks, stacks, parts)
    ensures chunks == ["<b>xy</b>", "<b></</b>", "<b>b></b>"]
  {
    TornFirstChunk("<b>xy</b>", chunks, stacks, parts);
    TornSecondChunk("<b>xy</b>", chunks, stacks, parts);
    TornThirdChunk("<b>xy</b>", chunks, stacks, parts);
  }

  lemma {:induction false} TornFirstChunk(t: string, chunks: seq<string>, stacks: seq<Stack>, parts: seq<seq<Piece>>)
    requires t == "<b>xy</b>" && SplitsInto(t, 5, chunks, stacks, parts)
    ensures |chunks| > 1 && |Bodies(parts[..1])| == 5 && stacks[1] == ["b"] && chunks[0] == "<b>xy</b>"
  {
    assert |chunks| > 0 by {
      assert Bodies(parts) == t;
    }
    assert parts[..0] == [];
    ChunkSpan(t, 5, chunks, stacks, parts, 0);
    TornWindowOne(t, chunks[0], stacks[0], |Bodies(parts[..1])|, stacks[1], 0 == |chunks| - 1);
  }

  lemma {:induction false} TornSecondChunk(t: string, chunks: seq<string>, stacks: seq<Stack>, parts: seq<seq<Piece>>)
    requires t == "<b>xy</b>" && SplitsInto(t, 5, chunks, stacks, parts)
    requires |chunks| > 1 && |Bodies(parts[..1])| == 5 && stacks[1] == ["b"]
    ensures |chunks| > 2 && |Bodies(parts[..2])| == 7 && stacks[2] == ["b"] && chunks[1] == "<b></</b>"
  {
    ChunkSpan(t, 5, chunks, stacks, parts, 1);
    TornWindowTwo(t, chunks[1], stacks[1], |Bodies(parts[..2])|, stacks[2], 1 == |chunks| - 1);
  }

  lemma {:induction false} TornThirdChunk(t: string, chunks: seq<string>, stacks: seq<Stack>, parts: seq<seq<Piece>>)
    requires t == "<b>xy</b>" && SplitsInto(t, 5, chunks, stacks, parts)
    requires |chunks| > 2 && |Bodies(parts[..2])| == 7 && stacks[2] == ["b"]
    ensures |chunks| == 3 && chunks[2] == "<b>b></b>"
  {
    ChunkSpan(t, 5, chunks, stacks, parts, 2);
    InnerChunkEndsEarly(t, 5, chunks, stacks, parts, 2);
    TornWindowThree(t, chunks[2], stacks[2], |Bodies(parts[..3])|, stacks[3], 2 == |chunks| - 1);
  }

  /** The first chunk of `TornClosingTag`: budget 5, nothing to reopen. */
  lemma {:induction false} TornWindowOne(t: string, chunk: string, before: Stack, e: nat, after: Stack, last: bool)
    requires t == "<b>xy</b>" && before == [] && 0 < e <= |t|
    requires after == Effect(before, Tokens(t, 0, e))
    requires chunk == ReopenTags(before) + t[0..e] + CloseTags(after)
    requires !last ==> |ReopenTags(before)| + (e - 0) == 5
    requires last ==> e == |t| && |ReopenTags(before)| + (e - 0) <= 5
    ensures !last && e == 5 && after == ["b"] && chunk == "<b>xy</b>"
  {
    assert e == 5;
    TornFirstWindow(t);
    BoldTags();
  }

  /** The second chunk: `<b>` is reopened, so only two characters of text fit. */
  lemma {:induction false} TornWindowTwo(t: string, chunk: string, before: Stack, e: nat, after: Stack, last: bool)
    requires t == "<b>xy</b>" && before == ["b"] && 5 < e <= |t|
    requires after == Effect(before, Tokens(t, 5, e))
    requires chunk == ReopenTags(before) + t[5..e] + CloseTags(after)
    requires !last ==> |ReopenTags(before)| + (e - 5) == 5
    requires last ==> e == |t| && |ReopenTags(before)| + (e - 5) <= 5
    ensures !last && e == 7 && after == ["b"] && chunk == "<b></</b>"
  {
    BoldTags();
    assert e == 7;
    TornSecondWindow(t);
  }

  /** The third chunk holds the rest of the text. */
  lemma {:induction false} TornWindowThree(t: string, chunk: string, before: Stack, e: nat, after: Stack, last: bool)
    requires t == "<b>xy</b>" && before == ["b"] && 7 < e <= |t|
    requires after == Effect(before, Tokens(t, 7, e))
    requires chunk == ReopenTags(before) + t[7..e] + CloseTags(after)
    requires !last ==> |ReopenTags(before)| + (e - 7) == 5 && e < |t|
    requires last ==> e == |t| && |ReopenTags(before)| + (e - 7) <= 5
    ensures last && e == 9 && after == ["b"] && chunk == "<b>b></b>"
  {
    BoldTags();
    assert e == 9;
    TornThirdWindow(t);
  }

  lemma BoldTags()
    ensures ReopenTags(["b"]) == "<b>" && CloseTags(["b"]) == "</b>"
  {
    assert ["b"][..0] == [];
  }

  /** The scanner reads the first window of `TornClosingTag` as a tag and text. */
  lemma {:induction false} TornFirstWindow(t: string)
    requires t == "<b>xy</b>"
    ensures Tokens(t, 0, 5) == [Markup(Tag(false, "b", "<b>")), Plain("xy")]
    ensures Effect([], Tokens(t, 0, 5)) == ["b"] && "" + t[0..5] + "</b>" == "<b>xy</b>"
  {
    assert NameEnd(t, 2) == 2 && NameEnd(t, 1) == 2 && CloseAngle(t, 2) == 2;
    assert t[1..2] == "b" && t[0..3] == "<b>" && t[0..0] == [] && t[3..5] == "xy";
    var m := TagMatch(0, 3, false, "b");
    assert TagAt(t, 0, 5) == Some(m);
    assert FindTag(t, 0, 5) == Some(m);
    TokensAtMatch(t, 0, 5, m);
    assert TagAt(t, 3, 5) == None && TagAt(t, 4, 5) == None && FindTag(t, 5, 5) == None;
    assert FindTag(t, 3, 5) == None;
    TokensNoMatch(t, 3, 5);
    TornEffects();
    TornTexts(t);
  }

  /** The second window holds the front of the closing tag, read as text. */
  lemma {:induction false} TornSecondWindow(t: string)
    requires t == "<b>xy</b>"
    ensures Tokens(t, 5, 7) == [Plain("</")]
    ensures Effect(["b"], Tokens(t, 5, 7)) == ["b"] && "<b>" + t[5..7] + "</b>" == "<b></</b>"
  {
    assert TagAt(t, 5, 7) == None && TagAt(t, 6, 7) == None && FindTag(t, 7, 7) == None;
    assert FindTag(t, 5, 7) == None;
    TokensNoMatch(t, 5, 7);
    assert t[5..7] == "</";
    TornEffects();
    TornTexts(t);
  }

  /** The third window holds the rest of the closing tag, read as text. */
  lemma {:induction false} TornThirdWindow(t: string)
    requires t == "<b>xy</b>"
    ensures Tokens(t, 7, 9) == [Plain("b>")]
    ensures Effect(["b"], Tokens(t, 7, 9)) == ["b"] && "<b>" + t[7..9] + "</b>" == "<b>b></b>"
  {
    assert TagAt(t, 7, 9) == None && TagAt(t, 8, 9) == None && FindTag(t, 9, 9) == None;
    assert FindTag(t, 7, 9) == None;
    TokensNoMatch(t, 7, 9);
    assert t[7..9] == "b>";
    TornEffects();
    TornTexts(t);
  }

  /** The open-tag lists the three windows of `TornClosingTag` leave. */
  lemma TornEffects()
    ensures Effect([], [Markup(Tag(false, "b", "<b>")), Plain("xy")]) == ["b"]
    ensures Effect(["b"], [Plain("</")]) == ["b"] && Effect(["b"], [Plain("b>")]) == ["b"]
  {
    var open := Markup(Tag(false, "b", "<b>"));
    var ps := [open, Plain("xy")];
    assert ps[..1] == [open] && [open][..0] == [];
    assert [Plain("</")][..0] == [] && [Plain("b>")][..0] == [];
  }

  /** The chunk texts of `TornClosingTag`, put together. */
  lemma {:induction false} TornTexts(t: string)
    requires t == "<b>xy</b>"
    ensures "" + t[0..5] + "</b>" == "<b>xy</b>"
    ensures "<b>" + t[5..7] + "</b>" == "<b></</b>"
    ensures "<b>" + t[7..9] + "</b>" == "<b>b></b>"
  {
    assert t[0..5] == "<b>xy" && t[5..7] == "</" && t[7..9] == "b>";
  }

  /** The body of the first chunk is no longer than the whole text. */
  lemma {:induction false} BodiesFirst(parts: seq<seq<Piece>>)
    requires |parts| >= 1
    ensures |Flatten(parts[0])| <= |Bodies(parts)|
  {
    if |parts| > 1 {
      BodiesFirst(parts[..|parts| - 1]);
    } else {
      assert parts[..0] == [];
    }
  }

  // ---------------------------------------------------------------------
  // Normalisation (send_answer.py:38-40)

  const Escaped: string := "&lt;blockquote expandable&gt;"
  const Live: string := "<blockquote expandable>"

  /** `s.replace('&lt;blockquote expandable&gt;', '<blockquote expandable>')`. */
  function RestoreExpandable(s: string): (r: string)
    ensures |r| <= |s|
  {
    if |s| >= |Escaped| && s[..|Escaped|] == Escaped then Live + RestoreExpandable(s[|Escaped|..])
    else if s == [] then ""
    else [s[0]] + RestoreExpandable(s[1..])
  }

  predicate OccursAt(s: string, i: nat, w: string)
  {
    i + |w| <= |s| && s[i..i + |w|] == w
  }

  /** The two spellings: the live opener has no `&`, the escaped one no `<`. */
  lemma PatternFacts()
    ensures |Escaped| == 29 && |Live| == 23
    ensures Escaped[0] == '&' && Live[0] == '<'
    ensures forall k :: 0 <= k < |Live| ==> Live[k] != '&'
    ensures forall k :: 0 <= k < |Escaped| ==> Escaped[k] != '<'
  {
  }

  /** Where the input starts with the escaped opener, the output starts with `<`. */
  lemma {:induction false} ReplacedStartsWithAngle(s: string, w: string)
    requires |s| >= |Escaped| && s[..|Escaped|] == Escaped
    requires 0 < |w| <= |RestoreExpandable(s)| && RestoreExpandable(s)[..|w|] == w
    ensures w[0] == '<'
  {
    PatternFacts();
    assert RestoreExpandable(s)[0] == Live[0];
  }

  /** A prefix of the output that has no `<` was already a prefix of the input. */
  lemma {:induction false} RestorePrefix(s: string, w: string)
    requires |w| <= |RestoreExpandable(s)| && RestoreExpandable(s)[..|w|] == w
    requires forall k :: 0 <= k < |w| ==> w[k] != '<'
    ensures |w| <= |s| && s[..|w|] == w
  {
    if w != [] {
      PatternFacts();
      var r := RestoreExpandable(s);
      if |s| >= |Escaped| && s[..|Escaped|] == Escaped {
        ReplacedStartsWithAngle(s, w);
        assert false;
      } else if s != [] {
        var rest := RestoreExpandable(s[1..]);
        assert r == [s[0]] + rest;
        assert rest[..|w| - 1] == w[1..];
        RestorePrefix(s[1..], w[1..]);
        assert s[..|w|] == [s[0]] + s[1..][..|w| - 1];
      }
    }
  }

  /** Text after the live opener that holds no escaped opener still holds none with it. */
  lemma {:induction false} NoEscapedAfterLive(rest: string)
    requires forall i: nat :: !OccursAt(rest, i, Escaped)
    ensures forall i: nat :: !OccursAt(Live + rest, i, Escaped)
  {
    PatternFacts();
    var r := Live + rest;
    forall i: nat | OccursAt(r, i, Escaped) ensures false {
      if i < |Live| {
        // An occurrence cannot start inside the live opener, which has no `&`.
      } else {
        assert rest[i - |Live|..i - |Live| + |Escaped|] == r[i..i + |Escaped|];
        assert OccursAt(rest, i - |Live|, Escaped);
      }
    }
  }

  /** A character kept as it was cannot start an escaped opener in the output. */
  lemma {:induction false} NoEscapedAfterChar(s: string)
    requires s != [] && !(|s| >= |Escaped| && s[..|Escaped|] == Escaped)
    requires forall i: nat :: !OccursAt(RestoreExpandable(s[1..]), i, Escaped)
    ensures forall i: nat :: !OccursAt([s[0]] + RestoreExpandable(s[1..]), i, Escaped)
  {
    forall i: nat ensures !OccursAt([s[0]] + RestoreExpandable(s[1..]), i, Escaped) {
      if i == 0 {
        FrontOccurrence(s);
      } else {
        ShiftedOccurrence(s[0], RestoreExpandable(s[1..]), i);
      }
    }
  }

  /** An escaped opener at the front of the output was already at the front of the input. */
  lemma {:induction false} FrontOccurrence(s: string)
    requires s != []
    ensures OccursAt([s[0]] + RestoreExpandable(s[1..]), 0, Escaped) ==> |s| >= |Escaped| && s[..|Escaped|] == Escaped
  {
    if OccursAt([s[0]] + RestoreExpandable(s[1..]), 0, Escaped) {
      var v := Escaped[1..];
      assert Escaped == [Escaped[0]] + v;
      assert forall k :: 0 <= k < |v| ==> v[k] != '<' by {
        PatternFacts();
      }
      FrontCase(s[0], s[1..], Escaped[0], v);
      ConsPrefix(s, Escaped);
    }
  }

  /**
   * `FrontOccurrence` for any word `[h] + v` with no `<` in `v`: an
   * occurrence at the front of `[c] + RestoreExpandable(tail)` is `c == h`
   * with `v` already at the front of `tail`.
   */
  lemma {:induction false} FrontCase(c: char, tail: string, h: char, v: string)
    requires forall k :: 0 <= k < |v| ==> v[k] != '<'
    requires OccursAt([c] + RestoreExpandable(tail), 0, [h] + v)
    ensures c == h && |v| <= |tail| && tail[..|v|] == v
  {
    var rest := RestoreExpandable(tail);
    assert c == h && |v| <= |rest| && rest[..|v|] == v by {
      ConsSlice(c, rest, h, v);
    }
    RestorePrefix(tail, v);
  }

  /** `[c] + rest` starting with `[h] + v` is `c == h` and `rest` starting with `v`. */
  lemma {:induction false} ConsSlice<T>(c: T, rest: seq<T>, h: T, v: seq<T>)
    requires 1 + |v| <= 1 + |rest| && ([c] + rest)[0..1 + |v|] == [h] + v
    ensures c == h && rest[..|v|] == v
  {
    var x := [c] + rest[..|v|];
    assert ([c] + rest)[0..1 + |v|] == x;
    assert x[0] == c && ([h] + v)[0] == h;
    assert x[1..] == rest[..|v|] && ([h] + v)[1..] == v;
  }

  /** A sequence starts with `w` when its head is `w`'s head and its tail starts with `w`'s tail. */
  lemma {:induction false} ConsPrefix<T>(s: seq<T>, w: seq<T>)
    requires s != [] && w != [] && s[0] == w[0]
    requires |w| - 1 <= |s| - 1 && s[1..][..|w| - 1] == w[1..]
    ensures |w| <= |s| && s[..|w|] == w
  {
    assert s[..|w|] == [s[0]] + s[1..][..|w| - 1];
  }

  /** An occurrence after a leading character is an occurrence in what follows it. */
  lemma {:induction false} ShiftedOccurrence(c: char, rest: string, i: nat)
    requires i > 0
    ensures OccursAt([c] + rest, i, Escaped) ==> OccursAt(rest, i - 1, Escaped)
  {
    var r := [c] + rest;
    if OccursAt(r, i, Escaped) {
      assert rest[i - 1..i - 1 + |Escaped|] == r[i..i + |Escaped|];
    }
  }

  /** After normalisation no escaped expandable-blockquote opener is left. */
  lemma {:induction false} RestoreLeavesNoEscaped(s: string)
    ensures forall i: nat :: !OccursAt(RestoreExpandable(s), i, Escaped)
  {
    if |s| >= |Escaped| && s[..|Escaped|] == Escaped {
      RestoreLeavesNoEscaped(s[|Escaped|..]);
      NoEscapedAfterLive(RestoreExpandable(s[|Escaped|..]));
    } else if s != [] {
      RestoreLeavesNoEscaped(s[1..]);
      NoEscapedAfterChar(s);
    }
  }

  /** The text the loop works on: `telegram_format` then the fix-up, unless `type_` was given. */
  function Normalise(text: string, typeGiven: bool, telegramFormat: string -> string): (r: string)
    ensures typeGiven ==> r == text
    ensures !typeGiven ==> forall i: nat :: !OccursAt(r, i, Escaped)
  {
    RestoreLeavesNoEscaped(telegramFormat(text));
    if typeGiven then text else RestoreExpandable(telegramFormat(text))
  }

  // ---------------------------------------------------------------------
  // split_code_message

  /**
   * What `split_code_message` does: return its chunks, or never return. The
   * source loops for ever once the reopen prefix of the open tags reaches
   * `chunk_size`: `next_cut` is then at or before `position`, nothing is
   * consumed and the same prefix is emitted again and again.
   */
  datatype SplitOutcome = Chunks(chunks: seq<string>) | Diverges(openTags: Stack)

  /**
   * The state of the loop at its head: the chunks emitted so far split
   * `t[..position]` together with the pieces of the chunk under construction.
   */
  ghost predicate Progress(t: string, size: int, position: nat, chunks: seq<string>, stacks: seq<Stack>,
                           parts: seq<seq<Piece>>, body: seq<Piece>, openTags: Stack, current: string)
  {
    && position <= |t|
    && ChunksDone(size, chunks, stacks, parts)
    && AllWellFormed(body)
    && openTags == Effect(stacks[|chunks|], body)
    && current == ReopenTags(stacks[|chunks|]) + Flatten(body)
    && Bodies(parts) + Flatten(body) == t[..position]
    && (position == 0 ==> chunks == [] && body == [])
    && (position > 0 ==> |current| <= size)
  }

  /**
   * Where the window of the chunk that started at `start` with `open` open
   * ends: `next_cut` is the same on every pass through one chunk, clipped to
   * the text.
   */
  function Window(t: string, size: int, start: nat, open: Stack): int
  {
    var w := start + size - |ReopenTags(open)|;
    if w < |t| then w else |t|
  }

  /**
   * The pieces are the ones the scanner reads: every emitted chunk's, and for
   * the chunk under construction, the pieces read so far followed by what is
   * left of its window are the reading of the whole window.
   */
  ghost predicate Scanned(t: string, size: int, position: nat, parts: seq<seq<Piece>>, open: Stack, body: seq<Piece>)
  {
    var start := |Bodies(parts)|;
    && ChunksScanned(t, parts)
    && body + Tokens(t, position, Window(t, size, start, open)) == Tokens(t, start, Window(t, size, start, open))
  }

  /** A chunk whose pieces are the reading of its stretch joins the scanned chunks. */
  lemma {:induction false} ChunksScannedAppend(t: string, parts: seq<seq<Piece>>, body: seq<Piece>, end: nat)
    requires ChunksScanned(t, parts)
    requires end == |Bodies(parts)| + |Flatten(body)| && body == Tokens(t, |Bodies(parts)|, end)
    ensures ChunksScanned(t, parts + [body])
  {
    var parts' := parts + [body];
    forall k | 0 <= k < |parts'|
      ensures parts'[k] == Tokens(t, |Bodies(parts'[..k])|, |Bodies(parts'[..k + 1])|)
    {
      if k < |parts| {
        StretchOfPrefix(parts, parts', k);
        assert parts[k] == Tokens(t, |Bodies(parts[..k])|, |Bodies(parts[..k + 1])|);
      } else {
        StretchOfLast(parts, body);
        assert |Bodies(parts'[..k])| == |Bodies(parts)| && |Bodies(parts'[..k + 1])| == end;
        assert parts'[k] == body;
      }
    }
  }

  /** The stretch of a chunk added last starts where the earlier bodies end. */
  lemma {:induction false} StretchOfLast(parts: seq<seq<Piece>>, body: seq<Piece>)
    ensures var parts' := parts + [body];
      && parts'[|parts|] == body
      && Bodies(parts'[..|parts|]) == Bodies(parts)
      && |Bodies(parts'[..|parts| + 1])| == |Bodies(parts)| + |Flatten(body)|
  {
    var parts' := parts + [body];
    assert parts'[..|parts|] == parts && parts'[..|parts| + 1] == parts';
    BodiesAppend(parts, body);
  }

  /** The stretch of an earlier chunk does not move when chunks are added after it. */
  lemma {:induction false} StretchOfPrefix(parts: seq<seq<Piece>>, parts': seq<seq<Piece>>, k: nat)
    requires k < |parts| <= |parts'| && parts == parts'[..|parts|]
    ensures parts'[k] == parts[k]
    ensures Bodies(parts'[..k]) == Bodies(parts[..k]) && Bodies(parts'[..k + 1]) == Bodies(parts[..k + 1])
  {
    assert parts'[..k] == parts[..k] && parts'[..k + 1] == parts[..k + 1];
  }

  /** When the window is used up, the body is the reading of the chunk's whole stretch. */
  lemma {:induction false} ScanComplete(t: string, size: int, position: nat, parts: seq<seq<Piece>>, open: Stack, body: seq<Piece>)
    requires Scanned(t, size, position, parts, open, body)
    requires |Bodies(parts)| + |Flatten(body)| == position == Window(t, size, |Bodies(parts)|, open)
    ensures ChunksScanned(t, parts + [body])
  {
    TokensEmpty(t, position);
    assert body + Tokens(t, position, position) == body;
    ChunksScannedAppend(t, parts, body, position);
  }

  /** Reading a window that holds no match (send_answer.py:62-64) keeps the pieces the scanner's. */
  lemma {:induction false} ScanPlain(t: string, size: int, position: nat, parts: seq<seq<Piece>>, open: Stack, body: seq<Piece>)
    requires Scanned(t, size, position, parts, open, body)
    requires position < Window(t, size, |Bodies(parts)|, open)
    requires FindTag(t, position, Window(t, size, |Bodies(parts)|, open)).None?
    ensures var cut := Window(t, size, |Bodies(parts)|, open);
      Scanned(t, size, cut, parts, open, body + [Plain(t[position..cut])])
  {
    var cut := Window(t, size, |Bodies(parts)|, open);
    TokensNoMatch(t, position, cut);
    TokensEmpty(t, cut);
  }

  /** Reading up to and including the next match (send_answer.py:66-86) keeps the pieces the scanner's. */
  lemma {:induction false} ScanMatch(t: string, size: int, position: nat, parts: seq<seq<Piece>>, open: Stack, body: seq<Piece>,
                  m: TagMatch)
    requires Scanned(t, size, position, parts, open, body)
    requires position < Window(t, size, |Bodies(parts)|, open)
    requires FindTag(t, position, Window(t, size, |Bodies(parts)|, open)) == Some(m)
    ensures Scanned(t, size, m.end, parts, open,
                    Extend(body, t[position..m.start]) + [Markup(Tag(m.closing, m.name, t[m.start..m.end]))])
  {
    var cut := Window(t, size, |Bodies(parts)|, open);
    var pre := t[position..m.start];
    var tag := Markup(Tag(m.closing, m.name, t[m.start..m.end]));
    TokensAtMatch(t, position, cut, m);
    ExtendRegroup(body, pre, tag, Tokens(t, m.end, cut));
  }

  /** Extending the pieces read so far is reading the new pieces after them. */
  lemma {:induction false} ExtendRegroup(body: seq<Piece>, pre: string, tag: Piece, rest: seq<Piece>)
    ensures Extend(body, pre) + [tag] + rest == body + (Extend([], pre) + [tag] + rest)
  {
  }

  /** Each emitted chunk is a full chunk made of well-formed pieces. */
  ghost predicate ChunksDone(size: int, chunks: seq<string>, stacks: seq<Stack>, parts: seq<seq<Piece>>)
  {
    && |stacks| == |chunks| + 1 && |parts| == |chunks| && stacks[0] == []
    && forall k :: 0 <= k < |chunks| ==> FullChunkAt(size, chunks, stacks, parts, k)
  }

  /** Chunk `k` is a chunk of exactly `size` characters before its closers. */
  ghost predicate FullChunkAt(size: int, chunks: seq<string>, stacks: seq<Stack>, parts: seq<seq<Piece>>, k: int)
  {
    && 0 <= k < |chunks| && |stacks| == |chunks| + 1 && |parts| == |chunks|
    && ChunkOf(chunks[k], stacks[k], parts[k], stacks[k + 1])
    && |chunks[k]| - |CloseTags(stacks[k + 1])| == size
  }

  predicate AllWellFormed(ps: seq<Piece>)
  {
    forall k :: 0 <= k < |ps| ==> WellFormed(ps[k])
  }

  /** Pieces of well-formed text are never empty, so neither is their concatenation. */
  lemma {:induction false} FlattenNonEmpty(ps: seq<Piece>)
    requires ps != []
    requires WellFormed(ps[|ps| - 1])
    ensures Flatten(ps) != []
  {
  }

  lemma {:induction false} BodiesAppend(parts: seq<seq<Piece>>, ps: seq<Piece>)
    ensures Bodies(parts + [ps]) == Bodies(parts) + Flatten(ps)
  {
    assert (parts + [ps])[..|parts|] == parts;
  }

  /** Cutting a full chunk (send_answer.py:54-57) keeps the loop state, when the loop goes on. */
  lemma {:induction false} FlushKeeps(t: string, size: int, position: nat, chunks: seq<string>, stacks: seq<Stack>,
                   parts: seq<seq<Piece>>, body: seq<Piece>, openTags: Stack, current: string)
    requires Progress(t, size, position, chunks, stacks, parts, body, openTags, current)
    requires |current| >= size
    ensures |ReopenTags(openTags)| < size ==>
      Progress(t, size, position, chunks + [current + CloseTags(openTags)], stacks + [openTags],
               parts + [body], [], openTags, ReopenTags(openTags))
    ensures body != [] ==>
      && ChunksDone(size, chunks + [current + CloseTags(openTags)], stacks + [openTags], parts + [body])
      && Bodies(parts + [body]) == t[..position]
  {
    if body != [] || |ReopenTags(openTags)| < size {
      assert body != [];
      FlattenNonEmpty(body);
      BodiesAppend(parts, body);
      var chunk := current + CloseTags(openTags);
      assert ChunkOf(chunk, stacks[|chunks|], body, openTags);
      ChunksDoneAppend(size, chunks, stacks, parts, chunk, openTags, body);
    }
  }

  /** One more full chunk. */
  lemma {:induction false} ChunksDoneAppend(size: int, chunks: seq<string>, stacks: seq<Stack>, parts: seq<seq<Piece>>,
                         chunk: string, after: Stack, ps: seq<Piece>)
    requires ChunksDone(size, chunks, stacks, parts)
    requires ChunkOf(chunk, stacks[|chunks|], ps, after) && |chunk| - |CloseTags(after)| == size
    ensures ChunksDone(size, chunks + [chunk], stacks + [after], parts + [ps])
  {
    var chunks', stacks', parts' := chunks + [chunk], stacks + [after], parts + [ps];
    forall k | 0 <= k < |chunks'| ensures FullChunkAt(size, chunks', stacks', parts', k) {
      if k < |chunks| {
        assert FullChunkAt(size, chunks, stacks, parts, k);
        assert chunks'[k] == chunks[k] && stacks'[k] == stacks[k] && parts'[k] == parts[k];
        assert stacks'[k + 1] == stacks[k + 1];
      }
    }
  }

  /** The text up to the next tag, or up to the cut, joins the chunk as one tag-free piece. */
  function Extend(body: seq<Piece>, plain: string): seq<Piece>
  {
    if plain == [] then body else body + [Plain(plain)]
  }

  /** Appending the same text to both sides of `done + chunk == prefix`. */
  lemma {:induction false} AppendBoth(done: string, chunk: string, more: string, prefix: string)
    requires done + chunk == prefix
    ensures done + (chunk + more) == prefix + more
  {
  }

  /** A tag-free piece adds its text to the body and leaves the open tags as they were. */
  lemma {:induction false} ExtendPlain(open: Stack, body: seq<Piece>, plain: string)
    requires AllWellFormed(body) && NoTagIn(plain)
    ensures Flatten(Extend(body, plain)) == Flatten(body) + plain
    ensures Effect(open, Extend(body, plain)) == Effect(open, body)
    ensures AllWellFormed(Extend(body, plain))
  {
    var body' := Extend(body, plain);
    if plain != [] {
      assert body'[..|body|] == body;
      forall k | 0 <= k < |body'| ensures WellFormed(body'[k]) {
        if k < |body| { assert body'[k] == body[k]; }
      }
    }
  }

  /** Copying tag-free text (send_answer.py:62-64, 75) keeps the loop state. */
  lemma {:induction false} PlainKeeps(t: string, size: int, position: nat, chunks: seq<string>, stacks: seq<Stack>,
                   parts: seq<seq<Piece>>, body: seq<Piece>, openTags: Stack, current: string, upTo: nat)
    requires Progress(t, size, position, chunks, stacks, parts, body, openTags, current)
    requires position <= upTo <= |t|
    requires NoTagIn(t[position..upTo])
    requires |current| + (upTo - position) <= size
    ensures Progress(t, size, upTo, chunks, stacks, parts, Extend(body, t[position..upTo]), openTags,
                     current + t[position..upTo])
  {
    var plain := t[position..upTo];
    var open := stacks[|chunks|];
    ExtendPlain(open, body, plain);
    assert t[..upTo] == t[..position] + plain;
    AppendBoth(Bodies(parts), Flatten(body), plain, t[..position]);
    AppendBoth(ReopenTags(open), Flatten(body), plain, current);
  }

  /** Copying one matched tag (send_answer.py:77-86) keeps the loop state. */
  lemma {:induction false} TagKeeps(t: string, size: int, position: nat, chunks: seq<string>, stacks: seq<Stack>,
                 parts: seq<seq<Piece>>, body: seq<Piece>, openTags: Stack, current: string, tag: Tag)
    requires Progress(t, size, position, chunks, stacks, parts, body, openTags, current)
    requires TagSpells(tag)
    requires position + |tag.text| <= |t| && t[position..position + |tag.text|] == tag.text
    requires |current| + |tag.text| <= size
    ensures Progress(t, size, position + |tag.text|, chunks, stacks, parts, body + [Markup(tag)],
                     ApplyTag(openTags, tag.closing, tag.name), current + tag.text)
  {
    var body' := body + [Markup(tag)];
    var open := stacks[|chunks|];
    assert body'[..|body|] == body;
    assert Flatten(body') == Flatten(body) + tag.text;
    assert Effect(open, body') == ApplyTag(openTags, tag.closing, tag.name);
    assert AllWellFormed(body') by {
      forall k | 0 <= k < |body'| ensures WellFormed(body'[k]) {
        if k < |body| { assert body'[k] == body[k]; }
      }
    }
    assert t[..position + |tag.text|] == t[..position] + tag.text;
    AppendBoth(Bodies(parts), Flatten(body), tag.text, t[..position]);
    AppendBoth(ReopenTags(open), Flatten(body), tag.text, current);
  }

  /** The tag the search found next is copied whole. */
  lemma {:induction false} MatchKeeps(t: string, size: int, position: nat, chunks: seq<string>, stacks: seq<Stack>,
                   parts: seq<seq<Piece>>, body: seq<Piece>, openTags: Stack, current: string,
                   limit: nat, m: TagMatch)
    requires Progress(t, size, position, chunks, stacks, parts, body, openTags, current)
    requires position < limit <= |t| && TagAt(t, position, limit) == Some(m)
    requires |current| + (limit - position) <= size
    ensures position < m.end <= |t|
    ensures Progress(t, size, m.end, chunks, stacks, parts,
                     body + [Markup(Tag(m.closing, m.name, t[position..m.end]))],
                     ApplyTag(openTags, m.closing, m.name), current + t[position..m.end])
  {
    MatchSpells(t, position, limit, m);
    TagKeeps(t, size, position, chunks, stacks, parts, body, openTags, current,
             Tag(m.closing, m.name, t[position..m.end]));
  }

  /** A match's text is a tag spelled as the match reads it, and lies inside the text. */
  lemma {:induction false} MatchSpells(t: string, position: nat, limit: nat, m: TagMatch)
    requires position < limit <= |t| && TagAt(t, position, limit) == Some(m)
    ensures position < m.end <= |t| && |t[position..m.end]| == m.end - position
    ensures TagSpells(Tag(m.closing, m.name, t[position..m.end]))
  {
    TagAtSound(t, position, limit);
  }

  /** Before the first cut, the chunk under construction is the text read so far. */
  lemma {:induction false} FirstChunkIsPrefix(t: string, size: int, position: nat, stacks: seq<Stack>,
                           parts: seq<seq<Piece>>, body: seq<Piece>, openTags: Stack, current: string)
    requires Progress(t, size, position, [], stacks, parts, body, openTags, current)
    ensures current == t[..position] && |current| == position
  {
    assert ReopenTags(stacks[0]) == [] && Bodies(parts) == [];
  }

  /** The last flush (send_answer.py:88-92) completes a split of the whole text. */
  lemma {:induction false} FinishSplits(t: string, size: int, position: nat, chunks: seq<string>, stacks: seq<Stack>,
                     parts: seq<seq<Piece>>, body: seq<Piece>, openTags: Stack, current: string)
    requires Progress(t, size, position, chunks, stacks, parts, body, openTags, current)
    requires Scanned(t, size, position, parts, stacks[|chunks|], body)
    requires position == |t| && (position > 0 ==> body != [])
    ensures current == [] ==> SplitsInto(t, size, chunks, stacks, parts)
    ensures current != [] ==> SplitsInto(t, size, chunks + [current + CloseTags(openTags)],
                                         stacks + [openTags], parts + [body])
  {
    if current != "" {
      assert |current| == |ReopenTags(stacks[|chunks|])| + position - |Bodies(parts)|;
      ScanComplete(t, size, position, parts, stacks[|chunks|], body);
    }
    FinishCuts(t, size, chunks, stacks, parts, body, openTags, current);
  }

  /** The chunks the last flush leaves are cut as a split requires. */
  lemma {:induction false} FinishCuts(t: string, size: int, chunks: seq<string>, stacks: seq<Stack>,
                   parts: seq<seq<Piece>>, body: seq<Piece>, openTags: Stack, current: string)
    requires Progress(t, size, |t|, chunks, stacks, parts, body, openTags, current)
    requires t != [] ==> body != []
    ensures current == [] ==> CutsInto(t, size, chunks, stacks, parts)
    ensures current != [] ==> CutsInto(t, size, chunks + [current + CloseTags(openTags)],
                                        stacks + [openTags], parts + [body])
  {
    assert t[..|t|] == t;
    if current == [] {
      // Nothing was read: the text is empty and no chunk was cut.
      assert |Flatten(body)| == 0;
    } else {
      var n := |chunks|;
      var chunk := current + CloseTags(openTags);
      var chunks', stacks', parts' := chunks + [chunk], stacks + [openTags], parts + [body];
      assert t != [];
      FlattenNonEmpty(body);
      BodiesAppend(parts, body);
      forall k | 0 <= k <= n ensures ChunkAt(size, chunks', stacks', parts', k) {
        if k < n {
          assert FullChunkAt(size, chunks, stacks, parts, k);
          assert chunks'[k] == chunks[k] && stacks'[k] == stacks[k] && parts'[k] == parts[k];
          assert stacks'[k + 1] == stacks[k + 1];
        } else {
          assert ChunkOf(chunk, stacks[n], body, openTags);
        }
      }
    }
  }

  /**
   * One pass of the loop after its first flush (send_answer.py:59-86): read
   * up to the next tag inside the window `[position, next_cut)`, or the whole
   * window when it holds none.
   */
  method ReadWindow(t: string, chunkSize: int, chunks: seq<string>, current: string, openTags: Stack, position: nat,
                    ghost stacks: seq<Stack>, ghost parts: seq<seq<Piece>>, ghost body: seq<Piece>)
    returns (chunks': seq<string>, current': string, openTags': Stack, position': nat,
             ghost stacks': seq<Stack>, ghost parts': seq<seq<Piece>>, ghost body': seq<Piece>)
    requires Progress(t, chunkSize, position, chunks, stacks, parts, body, openTags, current)
    requires Scanned(t, chunkSize, position, parts, stacks[|chunks|], body)
    requires position < |t| && |current| < chunkSize
    ensures Progress(t, chunkSize, position', chunks', stacks', parts', body', openTags', current')
    ensures Scanned(t, chunkSize, position', parts', stacks'[|chunks'|], body')
    ensures var cut := Window(t, chunkSize, |Bodies(parts)|, stacks[|chunks|]);
      && position < cut
      && match FindTag(t, position, cut)
         case None => position' == cut && body' == body + [Plain(t[position..cut])]
         case Some(m) => position' == m.end
                         && body' == Extend(body, t[position..m.start]) + [Markup(Tag(m.closing, m.name, t[m.start..m.end]))]
    ensures position < position' && body' != []
    ensures chunks' == chunks && parts' == parts && stacks' == stacks
    ensures '<' !in t ==> openTags' == openTags
  {
    var nextCut := position + chunkSize - |current|;
    // Python's slice and search stop at the end of the text.
    var cut := if nextCut < |t| then nextCut else |t|;
    assert cut == Window(t, chunkSize, |Bodies(parts)|, stacks[|chunks|]) by {
      assert |current| == |ReopenTags(stacks[|chunks|])| + position - |Bodies(parts)|;
    }
    var nextMatch := FindTag(t, position, cut);

    if nextMatch.None? {
      ScanPlain(t, chunkSize, position, parts, stacks[|chunks|], body);
      SkippedTextHasNoTag(t, position, cut, cut);
      PlainKeeps(t, chunkSize, position, chunks, stacks, parts, body, openTags, current, cut);
      chunks', openTags', stacks', parts' := chunks, openTags, stacks, parts;
      current' := current + t[position..cut];
      body' := Extend(body, t[position..cut]);
      position' := cut;
    } else {
      assert t[nextMatch.value.start] == '<';
      chunks', current', openTags', position', stacks', parts', body' :=
        ReadTag(t, chunkSize, chunks, current, openTags, position, stacks, parts, body, cut, nextMatch.value);
    }
  }

  /**
   * The pass of `ReadWindow` that meets a tag (send_answer.py:66-86): the
   * text before it joins the chunk, the open-tag list is updated, and the tag
   * itself joins the chunk. It never cuts a chunk: the flush before a tag is
   * guarded by a condition that a match inside the window cannot meet.
   */
  method ReadTag(t: string, chunkSize: int, chunks: seq<string>, current: string, openTags: Stack, position: nat,
                 ghost stacks: seq<Stack>, ghost parts: seq<seq<Piece>>, ghost body: seq<Piece>, cut: nat, m: TagMatch)
    returns (chunks': seq<string>, current': string, openTags': Stack, position': nat,
             ghost stacks': seq<Stack>, ghost parts': seq<seq<Piece>>, ghost body': seq<Piece>)
    requires Progress(t, chunkSize, position, chunks, stacks, parts, body, openTags, current)
    requires Scanned(t, chunkSize, position, parts, stacks[|chunks|], body)
    requires position < |t| && |current| < chunkSize
    requires cut == Window(t, chunkSize, |Bodies(parts)|, stacks[|chunks|])
    requires cut <= position + chunkSize - |current| && position < cut
    requires FindTag(t, position, cut) == Some(m)
    ensures Progress(t, chunkSize, position', chunks', stacks', parts', body', openTags', current')
    ensures Scanned(t, chunkSize, position', parts', stacks'[|chunks'|], body')
    ensures position' == m.end
    ensures body' == Extend(body, t[position..m.start]) + [Markup(Tag(m.closing, m.name, t[m.start..m.end]))]
    ensures chunks' == chunks && parts' == parts && stacks' == stacks
  {
    chunks', current', openTags', position' := chunks, current, openTags, position;
    stacks', parts', body' := stacks, parts, body;
    ScanMatch(t, chunkSize, position, parts, stacks[|chunks|], body, m);
    // The match ends inside the window, so this flush never happens.
    assert m.start - position' + |current'| < chunkSize;
    if m.start - position' + |current'| >= chunkSize {
      current' := current' + CloseTags(openTags');
      chunks' := chunks' + [current'];
      current' := ReopenTags(openTags');
      parts', stacks', body' := parts' + [body'], stacks' + [openTags'], [];
    }

    SkippedTextHasNoTag(t, position', m.start, cut);
    PlainKeeps(t, chunkSize, position', chunks', stacks', parts', body', openTags', current', m.start);
    current' := current' + t[position'..m.start];
    body' := Extend(body', t[position'..m.start]);
    position' := m.start;

    ghost var openBefore := openTags';
    if m.closing {
      if m.name in openTags' {
        openTags' := RemoveFirst(openTags', m.name);
      }
    } else {
      openTags' := openTags' + [m.name];
    }

    MatchKeeps(t, chunkSize, position', chunks', stacks', parts', body', openBefore, current', cut, m);
    var tagFull := t[m.start..m.end];
    current' := current' + tagFull;
    body' := body' + [Markup(Tag(m.closing, m.name, tagFull))];
    position' := m.end;
  }

  /**
   * Where the loop stops making progress: the chunks cut so far are full, they
   * split a proper, non-empty prefix of the text as the scanner reads it, and
   * the reopen prefix of the tags open at the last cut already fills a chunk.
   */
  ghost predicate StuckAt(t: string, size: int, chunks: seq<string>, stacks: seq<Stack>, parts: seq<seq<Piece>>,
                          openTags: Stack)
  {
    && ChunksDone(size, chunks, stacks, parts)
    && 0 < |Bodies(parts)| < |t|
    && Bodies(parts) == t[..|Bodies(parts)|]
    && ChunksScanned(t, parts)
    && openTags == stacks[|chunks|]
    && |ReopenTags(openTags)| >= size
  }

  /**
   * A full chunk is cut (send_answer.py:54-57): the closers end it, and the
   * next chunk starts with the reopen prefix. The loop state is kept when the
   * prefix leaves room for more text.
   */
  method CutChunk(t: string, chunkSize: int, position: nat, chunks: seq<string>, current: string, openTags: Stack,
                  ghost stacks: seq<Stack>, ghost parts: seq<seq<Piece>>, ghost body: seq<Piece>)
    returns (chunks': seq<string>, current': string,
             ghost stacks': seq<Stack>, ghost parts': seq<seq<Piece>>, ghost body': seq<Piece>)
    requires Progress(t, chunkSize, position, chunks, stacks, parts, body, openTags, current)
    requires Scanned(t, chunkSize, position, parts, stacks[|chunks|], body)
    requires position < |t| && (position > 0 ==> body != [])
    requires |current| >= chunkSize
    ensures chunks' == chunks + [current + CloseTags(openTags)] && current' == ReopenTags(openTags)
    ensures |current'| < chunkSize ==> Progress(t, chunkSize, position, chunks', stacks', parts', body', openTags, current')
    ensures |current'| < chunkSize ==> Scanned(t, chunkSize, position, parts', stacks'[|chunks'|], body')
    ensures chunkSize > 0 && |current'| >= chunkSize ==> StuckAt(t, chunkSize, chunks', stacks', parts', openTags)
  {
    FlushKeeps(t, chunkSize, position, chunks, stacks, parts, body, openTags, current);
    if position > 0 {
      assert |current| == |ReopenTags(stacks[|chunks|])| + position - |Bodies(parts)|;
      ScanComplete(t, chunkSize, position, parts, stacks[|chunks|], body);
      BodiesAppend(parts, body);
    }
    chunks' := chunks + [current + CloseTags(openTags)];
    current' := ReopenTags(openTags);
    stacks', parts', body' := stacks + [openTags], parts + [body], [];
  }

  /** The last flush (send_answer.py:88-92): a chunk still being built is closed and kept. */
  method FlushLast(t: string, chunkSize: int, chunks: seq<string>, current: string, openTags: Stack, position: nat,
                   ghost stacks: seq<Stack>, ghost parts: seq<seq<Piece>>, ghost body: seq<Piece>)
    returns (chunks': seq<string>)
    requires Progress(t, chunkSize, position, chunks, stacks, parts, body, openTags, current)
    requires Scanned(t, chunkSize, position, parts, stacks[|chunks|], body)
    requires position == |t| && (position > 0 ==> body != [])
    ensures exists stacks', parts' :: SplitsInto(t, chunkSize, chunks', stacks', parts')
    ensures current == "" ==> chunks' == chunks
  {
    FinishSplits(t, chunkSize, position, chunks, stacks, parts, body, openTags, current);
    if current != "" {
      chunks' := chunks + [current + CloseTags(openTags)];
      SomeSplit(t, chunkSize, chunks', stacks + [openTags], parts + [body]);
    } else {
      chunks' := chunks;
      SomeSplit(t, chunkSize, chunks', stacks, parts);
    }
  }

  /** Names the witnesses of a split, so that callers need not find them. */
  lemma SomeSplit(t: string, size: int, chunks: seq<string>, stacks: seq<Stack>, parts: seq<seq<Piece>>)
    requires SplitsInto(t, size, chunks, stacks, parts)
    ensures exists stacks', parts' :: SplitsInto(t, size, chunks, stacks', parts')
  {
  }

  method SplitCodeMessage(text: string, chunkSize: int, typeGiven: bool, telegramFormat: string -> string)
    returns (out: SplitOutcome)
    ensures var t := Normalise(text, typeGiven, telegramFormat);
      out.Chunks? ==> exists stacks, parts :: SplitsInto(t, chunkSize, out.chunks, stacks, parts)
    ensures var t := Normalise(text, typeGiven, telegramFormat);
      out.Diverges? ==> t != [] && |ReopenTags(out.openTags)| >= chunkSize
    ensures var t := Normalise(text, typeGiven, telegramFormat);
      out.Diverges? && chunkSize > 0 ==> exists chunks, stacks, parts :: StuckAt(t, chunkSize, chunks, stacks, parts, out.openTags)
    ensures var t := Normalise(text, typeGiven, telegramFormat);
      chunkSize <= 0 ==> (out.Diverges? <==> t != []) && (out.Diverges? ==> out.openTags == [])
    ensures var t := Normalise(text, typeGiven, telegramFormat);
      |t| < chunkSize ==> out.Chunks?
    ensures var t := Normalise(text, typeGiven, telegramFormat);
      chunkSize > 0 && '<' !in t ==> out.Chunks?
  {
    var t := Normalise(text, typeGiven, telegramFormat);
    var chunks: seq<string> := [];
    var current := "";
    var openTags: Stack := [];
    var position := 0;
    // The chunk bodies and the open tags at each cut, as the loop builds them.
    ghost var parts: seq<seq<Piece>> := [];
    ghost var stacks: seq<Stack> := [[]];
    ghost var body: seq<Piece> := [];

    while position < |t|
      invariant Progress(t, chunkSize, position, chunks, stacks, parts, body, openTags, current)
      invariant Scanned(t, chunkSize, position, parts, stacks[|chunks|], body)
      invariant position > 0 ==> body != []
      invariant |t| < chunkSize ==> chunks == []
      invariant chunkSize <= 0 ==> position == 0
      invariant '<' !in t ==> openTags == []
      decreases |t| - position
    {
      if |t| < chunkSize {
        FirstChunkIsPrefix(t, chunkSize, position, stacks, parts, body, openTags, current);
      }
      if |current| >= chunkSize {
        chunks, current, stacks, parts, body := CutChunk(t, chunkSize, position, chunks, current, openTags,
                                                         stacks, parts, body);
      }

      if position + chunkSize - |current| <= position {
        // From here the source makes no progress and never leaves the loop.
        return Diverges(openTags);
      }
      chunks, current, openTags, position, stacks, parts, body :=
        ReadWindow(t, chunkSize, chunks, current, openTags, position, stacks, parts, body);
    }

    chunks := FlushLast(t, chunkSize, chunks, current, openTags, position, stacks, parts, body);
    out := Chunks(chunks);
  }
}
