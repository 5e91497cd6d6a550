/** The compiler's token wrapper (`CFlatToken`) over the parser generator's
    token records.

    The lexer links tokens in two directions: a regular token's `next` is the
    following regular token, its `specialToken` is the comment or whitespace
    token lexed just before it; each special token's `specialToken` is the
    special before it and its `next` the special after it. That graph has
    cycles (s.next.specialToken == s), so tokens live in a heap indexed by
    handles and `Ref` plays the role of a nullable Java reference.

    A chain is finite exactly when a `Path` witness for it exists; the ghost
    `layout` parameters below are such witnesses, one `Entry` per regular
    token, and every operation is related to the pure `Flatten` of its
    layout. */
module Tokens {
  import opened Strings

  datatype Ref = Null | To(handle: nat)

  /** A lexer token: kind, image, begin position, and the two links. */
  datatype Token = Token(
    kind: int,
    image: string,
    beginLine: int,
    beginColumn: int,
    next: Ref,
    specialToken: Ref)

  type Heap = map<nat, Token>

  /** The link a walk follows: `next` when `forward`, `specialToken` otherwise. */
  function Link(t: Token, forward: bool): Ref
  {
    if forward then t.next else t.specialToken
  }

  /** `hs` lists, in order, every token met when walking from `start` along
      one kind of link until the link is null. */
  predicate Path(heap: Heap, start: Ref, hs: seq<nat>, forward: bool)
  {
    && (forall i | 0 <= i < |hs| :: hs[i] in heap)
    && (if |hs| == 0 then start == Null
        else start == To(hs[0]) && Link(heap[hs[|hs| - 1]], forward) == Null)
    && (forall i | 0 <= i < |hs| - 1 :: Link(heap[hs[i]], forward) == To(hs[i + 1]))
  }

  lemma PathTail(heap: Heap, hs: seq<nat>, forward: bool)
    requires |hs| > 0 && Path(heap, To(hs[0]), hs, forward)
    ensures Path(heap, Link(heap[hs[0]], forward), hs[1..], forward)
  {
  }

  /** A walk is determined by where it starts. */
  lemma {:induction false} PathUnique(heap: Heap, start: Ref, hs: seq<nat>, gs: seq<nat>, forward: bool)
    requires Path(heap, start, hs, forward) && Path(heap, start, gs, forward)
    ensures hs == gs
    decreases |hs|
  {
    if |hs| > 0 {
      assert |gs| > 0 && gs[0] == hs[0];
      PathTail(heap, hs, forward);
      PathTail(heap, gs, forward);
      PathUnique(heap, Link(heap[hs[0]], forward), hs[1..], gs[1..], forward);
      assert hs == [hs[0]] + hs[1..];
      assert gs == [gs[0]] + gs[1..];
    }
  }

  lemma PathSuffix(heap: Heap, start: Ref, hs: seq<nat>, forward: bool, i: nat)
    requires Path(heap, start, hs, forward) && i < |hs|
    ensures Path(heap, To(hs[i]), hs[i..], forward)
  {
  }

  /** A finite walk never meets the same token twice. */
  lemma PathDistinct(heap: Heap, start: Ref, hs: seq<nat>, forward: bool)
    requires Path(heap, start, hs, forward)
    ensures forall i, j | 0 <= i < j < |hs| :: hs[i] != hs[j]
  {
    forall i, j | 0 <= i < j < |hs|
      ensures hs[i] != hs[j]
    {
      if hs[i] == hs[j] {
        PathSuffix(heap, start, hs, forward, i);
        PathSuffix(heap, start, hs, forward, j);
        PathUnique(heap, To(hs[i]), hs[i..], hs[j..], forward);
        assert false;
      }
    }
  }

  /** One regular token of a chain as it sits in the heap: its handle, the
      special tokens met walking `specialToken` from it (newest first), and
      the tokens met walking `next` from the oldest of those. */
  datatype Entry = Entry(tok: nat, back: seq<nat>, run: seq<nat>)

  predicate EntryLaid(heap: Heap, e: Entry)
  {
    && e.tok in heap
    && Path(heap, heap[e.tok].specialToken, e.back, false)
    && (if |e.back| == 0 then e.run == []
        else Path(heap, To(e.back[|e.back| - 1]), e.run, true))
  }

  function Regulars(layout: seq<Entry>): (hs: seq<nat>)
    ensures |hs| == |layout|
    ensures forall i | 0 <= i < |layout| :: hs[i] == layout[i].tok
  {
    seq(|layout|, i requires 0 <= i < |layout| => layout[i].tok)
  }

  /** `layout` describes the finite chain of regular tokens from `first` and the
      finite special-token walks hanging off each of them. */
  predicate Laid(heap: Heap, first: Ref, layout: seq<Entry>)
  {
    && Path(heap, first, Regulars(layout), true)
    && forall i | 0 <= i < |layout| :: EntryLaid(heap, layout[i])
  }

  /** The compiler's token wrapper: a handle and the `isSpecial` flag. */
  datatype CFlatToken = CFlatToken(token: nat, isSpecial: bool)

  /** The one-argument constructor: a wrapper that is not marked special. */
  function Wrap(h: nat): CFlatToken
  {
    CFlatToken(h, false)
  }

  function WrapAll(hs: seq<nat>): (r: seq<CFlatToken>)
    ensures |r| == |hs|
    ensures forall i | 0 <= i < |hs| :: r[i] == Wrap(hs[i])
  {
    seq(|hs|, i requires 0 <= i < |hs| => Wrap(hs[i]))
  }

  lemma WrapAllAppend(a: seq<nat>, b: seq<nat>)
    ensures WrapAll(a + b) == WrapAll(a) + WrapAll(b)
  {
  }

  function Image(heap: Heap, c: CFlatToken): string
    requires c.token in heap
  {
    heap[c.token].image
  }

  function LineNo(heap: Heap, c: CFlatToken): int
    requires c.token in heap
  {
    heap[c.token].beginLine
  }

  function Column(heap: Heap, c: CFlatToken): int
    requires c.token in heap
  {
    heap[c.token].beginColumn
  }

  function KindId(heap: Heap, c: CFlatToken): int
    requires c.token in heap
  {
    heap[c.token].kind
  }

  /** `toString` renders the wrapped token's image. */
  function ToString(heap: Heap, c: CFlatToken): string
    requires c.token in heap
  {
    Image(heap, c)
  }

  /** What a freshly wrapped token reports: not special, and the wrapped
      token's own image, begin line and begin column. */
  lemma WrapReadsToken(heap: Heap, h: nat)
    requires h in heap
    ensures !Wrap(h).isSpecial && Wrap(h).token == h
    ensures ToString(heap, Wrap(h)) == Image(heap, Wrap(h)) == heap[h].image
    ensures LineNo(heap, Wrap(h)) == heap[h].beginLine
    ensures Column(heap, Wrap(h)) == heap[h].beginColumn
  {
  }

  /** The handles of the specials the token list emits before an entry's
      token: none when they are rejected, else the run. */
  function SpecialHandles(e: Entry, reject: bool): seq<nat>
  {
    if reject then [] else e.run
  }

  /** Those specials, wrapped. */
  function Specials(e: Entry, reject: bool): seq<CFlatToken>
  {
    WrapAll(SpecialHandles(e, reject))
  }

  /** Reference definition of the token list: each regular token of the chain
      in order, preceded by its special run, the first token's run left out
      when `rejectFirst`. */
  function Flatten(layout: seq<Entry>, rejectFirst: bool): seq<CFlatToken>
    decreases |layout|
  {
    if |layout| == 0 then []
    else Specials(layout[0], rejectFirst) + [Wrap(layout[0].tok)] + Flatten(layout[1..], false)
  }

  /** Where the link of the `i`-th token of a walk leads: to the next token
      of the walk, or to null after the last one. */
  lemma PathNext(heap: Heap, start: Ref, hs: seq<nat>, forward: bool, i: nat)
    requires Path(heap, start, hs, forward) && i < |hs|
    ensures Link(heap[hs[i]], forward) == (if i + 1 < |hs| then To(hs[i + 1]) else Null)
  {
    if i + 1 < |hs| {
      assert Link(heap[hs[i]], forward) == To(hs[i + 1]);
    }
  }

  /** Walks `specialToken` links from `firstSpecial` to the oldest special token. */
  method SpecialTokenHead(heap: Heap, firstSpecial: nat, ghost back: seq<nat>) returns (s: nat)
    requires Path(heap, To(firstSpecial), back, false)
    ensures s in heap && heap[s].specialToken == Null
    ensures s == back[|back| - 1]
  {
    s := firstSpecial;
    ghost var i := 0;
    while heap[s].specialToken != Null
      invariant 0 <= i < |back| && s == back[i]
      decreases |back| - i
    {
      s := heap[s].specialToken.handle;
      i := i + 1;
    }
    PathNext(heap, To(firstSpecial), back, false, i);
  }

  /** The special run before regular token `t`: from the oldest special,
      every token met along `next`, each wrapped by the one-argument
      constructor. */
  method SpecialRun(heap: Heap, t: nat, ghost e: Entry) returns (specials: seq<CFlatToken>)
    requires EntryLaid(heap, e) && e.tok == t
    requires heap[t].specialToken != Null
    ensures specials == WrapAll(e.run)
  {
    var s := SpecialTokenHead(heap, heap[t].specialToken.handle, e.back);
    specials := [];
    var r := To(s);
    ghost var j := 0;
    while r != Null
      invariant 0 <= j <= |e.run|
      invariant r == (if j < |e.run| then To(e.run[j]) else Null)
      invariant specials == WrapAll(e.run[..j])
      decreases |e.run| - j
    {
      specials := specials + [Wrap(r.handle)];
      r := heap[r.handle].next;
      j := j + 1;
    }
    assert e.run[..j] == e.run;
  }

  lemma FlattenStep(layout: seq<Entry>, i: nat, reject: bool)
    requires i < |layout|
    ensures Flatten(layout[i..], reject)
         == Specials(layout[i], reject) + [Wrap(layout[i].tok)] + Flatten(layout[i + 1..], false)
  {
    assert layout[i..][1..] == layout[i + 1..];
  }

  /** One step of `BuildTokenList`: emitting entry `i`'s specials and token
      moves the split point of the list from `i` to `i + 1`. */
  lemma ExtendByEntry(layout: seq<Entry>, i: nat, reject: bool, result: seq<CFlatToken>,
                      specials: seq<CFlatToken>, whole: seq<CFlatToken>)
    requires i < |layout|
    requires result + Flatten(layout[i..], reject) == whole
    requires specials == Specials(layout[i], reject)
    ensures result + specials + [Wrap(layout[i].tok)] + Flatten(layout[i + 1..], false) == whole
  {
    FlattenStep(layout, i, reject);
    var rest := Flatten(layout[i + 1..], false);
    assert result + (specials + [Wrap(layout[i].tok)] + rest) == result + specials + [Wrap(layout[i].tok)] + rest;
  }

  /** Every token in the list is a token of the heap. */
  lemma {:induction false} FlattenInHeap(heap: Heap, layout: seq<Entry>, rejectFirst: bool)
    requires forall i | 0 <= i < |layout| :: EntryLaid(heap, layout[i])
    ensures forall k | 0 <= k < |Flatten(layout, rejectFirst)| :: Flatten(layout, rejectFirst)[k].token in heap
    decreases |layout|
  {
    if |layout| > 0 {
      FlattenInHeap(heap, layout[1..], false);
    }
  }

  /** Flattens the chain from `first`: for each regular token, its special
      tokens oldest first (skipped for the first token when
      `rejectFirstSpecials`), then the token itself, all wrapped by the
      one-argument constructor. */
  method BuildTokenList(heap: Heap, first: Ref, rejectFirstSpecials: bool, ghost layout: seq<Entry>)
    returns (result: seq<CFlatToken>)
    requires Laid(heap, first, layout)
    ensures result == Flatten(layout, rejectFirstSpecials)
    ensures forall k | 0 <= k < |result| :: result[k].token in heap
  {
    result := [];
    var rejectSpecials := rejectFirstSpecials;
    var t := first;
    ghost var i := 0;
    while t != Null
      invariant 0 <= i <= |layout|
      invariant t == (if i < |layout| then To(layout[i].tok) else Null)
      invariant rejectSpecials == (rejectFirstSpecials && i == 0)
      invariant result + Flatten(layout[i..], rejectSpecials) == Flatten(layout, rejectFirstSpecials)
      decreases |layout| - i
    {
      ghost var e := layout[i];
      assert EntryLaid(heap, e);
      var tok := heap[t.handle];
      PathNext(heap, first, Regulars(layout), true, i);
      var specials := [];
      if tok.specialToken != Null && !rejectSpecials {
        specials := SpecialRun(heap, t.handle, e);
      }
      ExtendByEntry(layout, i, rejectSpecials, result, specials, Flatten(layout, rejectFirstSpecials));
      result := result + specials + [Wrap(t.handle)];
      rejectSpecials := false;
      t := tok.next;
      i := i + 1;
    }
    assert layout[i..] == [];
    FlattenInHeap(heap, layout, rejectFirstSpecials);
  }

  /** `iterator()`: the token list from `c` with the first token's specials. */
  method Iterator(heap: Heap, c: CFlatToken, ghost layout: seq<Entry>) returns (toks: seq<CFlatToken>)
    requires Laid(heap, To(c.token), layout)
    ensures toks == Flatten(layout, false)
    ensures forall k | 0 <= k < |toks| :: toks[k].token in heap
  {
    toks := BuildTokenList(heap, To(c.token), false, layout);
  }

  /** `tokensWithoutFirstSpecials()`: the same list without the first token's specials. */
  method TokensWithoutFirstSpecials(heap: Heap, c: CFlatToken, ghost layout: seq<Entry>)
    returns (toks: seq<CFlatToken>)
    requires Laid(heap, To(c.token), layout)
    ensures toks == Flatten(layout, true)
    ensures forall k | 0 <= k < |toks| :: toks[k].token in heap
  {
    toks := BuildTokenList(heap, To(c.token), true, layout);
  }

  function Images(heap: Heap, toks: seq<CFlatToken>): (r: seq<string>)
    requires forall k | 0 <= k < |toks| :: toks[k].token in heap
    ensures |r| == |toks|
    ensures forall k | 0 <= k < |toks| :: r[k] == Image(heap, toks[k])
  {
    seq(|toks|, k requires 0 <= k < |toks| => Image(heap, toks[k]))
  }

  /** Reference definition of the included line: the images of the token list
      without the first token's specials, concatenated, cut before the first
      newline. */
  function LineText(heap: Heap, layout: seq<Entry>): string
    requires forall i | 0 <= i < |layout| :: EntryLaid(heap, layout[i])
  {
    FlattenInHeap(heap, layout, true);
    FirstLine(Concat(Images(heap, Flatten(layout, true))))
  }

  /** Splits a concatenation around its `i`-th part. */
  lemma ConcatAround(images: seq<string>, i: nat)
    requires i < |images|
    ensures Concat(images) == Concat(images[..i]) + images[i] + Concat(images[i + 1..])
  {
    var a, b := images[..i + 1], images[i + 1..];
    assert a + b == images;
    ConcatAppend(a, b);
    ConcatSnoc(images, i);
  }

  /** The state where `includedLine()` breaks out of its loop: the parts
      before the `i`-th hold no newline and the `i`-th does at `idx`. */
  lemma LineAtBreak(images: seq<string>, i: nat, idx: nat)
    requires i < |images| && '\n' !in Concat(images[..i])
    requires idx < |images[i]| && images[i][idx] == '\n' && '\n' !in images[i][..idx]
    ensures Concat(images[..i]) + images[i][..idx] == FirstLine(Concat(images))
  {
    var img := images[i];
    ConcatAround(images, i);
    assert Concat(images[..i]) + img + Concat(images[i + 1..])
        == Concat(images[..i]) + (img + Concat(images[i + 1..]));
    FirstLineAfterPlain(Concat(images[..i]), img + Concat(images[i + 1..]));
    assert img[idx] in img;
    FirstLineBeforeNewline(img, Concat(images[i + 1..]));
    FirstLineUnique(img, img[..idx]);
  }

  lemma ConcatSnoc(images: seq<string>, i: nat)
    requires i < |images|
    ensures Concat(images[..i + 1]) == Concat(images[..i]) + images[i]
  {
    assert images[..i + 1][..i] == images[..i];
  }

  /** `includedLine()`: appends images until one holds a newline, keeping
      that image's text before the newline and stopping there. */
  method IncludedLine(heap: Heap, c: CFlatToken, ghost layout: seq<Entry>) returns (line: string)
    requires Laid(heap, To(c.token), layout)
    ensures line == LineText(heap, layout)
    ensures '\n' !in line
  {
    var toks := TokensWithoutFirstSpecials(heap, c, layout);
    ghost var images := Images(heap, toks);
    var buf := "";
    var i := 0;
    while i < |toks|
      invariant 0 <= i <= |toks|
      invariant buf == Concat(images[..i]) && '\n' !in buf
    {
      var img := heap[toks[i].token].image;
      var idx := IndexOf(img, '\n');
      if idx >= 0 {
        LineAtBreak(images, i, idx);
        return buf + img[..idx];
      }
      ConcatSnoc(images, i);
      buf := buf + img;
      i := i + 1;
    }
    assert images[..i] == images;
    line := buf;
  }

  // Properties of the token list.

  /** Without the first token's specials, the list is that token followed by
      the full list of the rest of the chain: no later token loses its specials. */
  lemma RejectOnlyFirstSpecials(layout: seq<Entry>)
    requires |layout| > 0
    ensures Flatten(layout, true) == [Wrap(layout[0].tok)] + Flatten(layout[1..], false)
  {
    assert Specials(layout[0], true) == [];
  }

  /** `iterator()` is `tokensWithoutFirstSpecials()` with the first token's run in front. */
  lemma IteratorAddsFirstSpecials(layout: seq<Entry>)
    ensures |layout| == 0 ==> Flatten(layout, false) == Flatten(layout, true) == []
    ensures |layout| > 0 ==> Flatten(layout, false) == WrapAll(layout[0].run) + Flatten(layout, true)
  {
    if |layout| > 0 {
      var w := Wrap(layout[0].tok);
      var rest := Flatten(layout[1..], false);
      RejectOnlyFirstSpecials(layout);
      assert Flatten(layout, false) == WrapAll(layout[0].run) + [w] + rest;
      Associative(WrapAll(layout[0].run), [w], rest);
    }
  }

  lemma Associative<T>(a: seq<T>, b: seq<T>, c: seq<T>)
    ensures a + b + c == a + (b + c)
  {
  }

  /** The list of a chain is the list of its first `i` entries followed by
      the list of the rest, which keeps its first specials unless `i` is 0. */
  lemma {:induction false} FlattenSplit(layout: seq<Entry>, rejectFirst: bool, i: nat)
    requires i <= |layout|
    ensures Flatten(layout, rejectFirst)
         == Flatten(layout[..i], rejectFirst) + Flatten(layout[i..], rejectFirst && i == 0)
    decreases i
  {
    if i == 0 {
      assert layout[..0] == [] && layout[0..] == layout;
    } else {
      var tail := layout[1..];
      var head := Specials(layout[0], rejectFirst) + [Wrap(layout[0].tok)];
      FlattenSplit(tail, false, i - 1);
      assert tail[..i - 1] == layout[..i][1..];
      assert tail[i - 1..] == layout[i..];
      Associative(head, Flatten(tail[..i - 1], false), Flatten(tail[i - 1..], false));
    }
  }

  /** The list splits at every chain position: the first `i` entries' output,
      then entry `i`'s specials, then its token, then the rest. */
  lemma FlattenBlocks(layout: seq<Entry>, rejectFirst: bool, i: nat)
    requires i < |layout|
    ensures Flatten(layout, rejectFirst)
         == Flatten(layout[..i], rejectFirst)
          + Specials(layout[i], rejectFirst && i == 0)
          + [Wrap(layout[i].tok)]
          + Flatten(layout[i + 1..], false)
  {
    FlattenSplit(layout, rejectFirst, i);
    FlattenStep(layout, i, rejectFirst && i == 0);
    var sp := Specials(layout[i], rejectFirst && i == 0);
    Associative4(Flatten(layout[..i], rejectFirst), sp, [Wrap(layout[i].tok)], Flatten(layout[i + 1..], false));
  }

  lemma Associative4<T>(a: seq<T>, b: seq<T>, c: seq<T>, d: seq<T>)
    ensures a + (b + c + d) == a + b + c + d
  {
  }

  /** Reading back the middle of `a + b + [x] + c`. */
  lemma Middle<T>(a: seq<T>, b: seq<T>, x: T, c: seq<T>)
    ensures |a| + |b| < |a + b + [x] + c|
    ensures (a + b + [x] + c)[|a| + |b|] == x
    ensures (a + b + [x] + c)[|a|..|a| + |b|] == b
  {
  }

  /** Position of the `i`-th regular token in the list. */
  function Pos(layout: seq<Entry>, rejectFirst: bool, i: nat): int
    requires i < |layout|
  {
    |Flatten(layout[..i + 1], rejectFirst)| - 1
  }

  lemma FlattenPrefixGrows(layout: seq<Entry>, rejectFirst: bool, i: nat)
    requires i < |layout|
    ensures Flatten(layout[..i + 1], rejectFirst)
         == Flatten(layout[..i], rejectFirst) + Specials(layout[i], rejectFirst && i == 0) + [Wrap(layout[i].tok)]
  {
    var pre := layout[..i + 1];
    FlattenBlocks(pre, rejectFirst, i);
    assert pre[..i] == layout[..i];
    assert pre[i + 1..] == [];
  }

  /** The `i`-th regular token sits at `Pos(i)`, directly preceded by its
      special run (oldest first, as the `next` walk meets them). */
  lemma RegularAtPos(layout: seq<Entry>, rejectFirst: bool, i: nat)
    requires i < |layout|
    ensures var p := Pos(layout, rejectFirst, i);
            var sp := Specials(layout[i], rejectFirst && i == 0);
            && |sp| <= p < |Flatten(layout, rejectFirst)|
            && Flatten(layout, rejectFirst)[p] == Wrap(layout[i].tok)
            && Flatten(layout, rejectFirst)[p - |sp|..p] == sp
  {
    var sp := Specials(layout[i], rejectFirst && i == 0);
    var pre := Flatten(layout[..i], rejectFirst);
    var rest := Flatten(layout[i + 1..], false);
    var out := Flatten(layout, rejectFirst);
    FlattenBlocks(layout, rejectFirst, i);
    FlattenPrefixGrows(layout, rejectFirst, i);
    assert Pos(layout, rejectFirst, i) == |pre| + |sp|;
    Middle(pre, sp, Wrap(layout[i].tok), rest);
    assert out == pre + sp + [Wrap(layout[i].tok)] + rest;
  }

  /** Regular tokens appear in chain order. */
  lemma RegularsInChainOrder(layout: seq<Entry>, rejectFirst: bool, i: nat, j: nat)
    requires i < j < |layout|
    ensures Pos(layout, rejectFirst, i) < Pos(layout, rejectFirst, j)
  {
    FlattenPrefixMonotone(layout, rejectFirst, i + 1, j + 1);
  }

  lemma {:induction false} FlattenPrefixMonotone(layout: seq<Entry>, rejectFirst: bool, a: nat, b: nat)
    requires a <= b <= |layout|
    ensures |Flatten(layout[..a], rejectFirst)| <= |Flatten(layout[..b], rejectFirst)| - (b - a)
    decreases b - a
  {
    if a < b {
      FlattenPrefixMonotone(layout, rejectFirst, a, b - 1);
      FlattenPrefixGrows(layout, rejectFirst, b - 1);
    }
  }

  /** What the lexer guarantees about one special run: walking `next` from the
      oldest special visits the same specials the `specialToken` walk does, in
      reverse, and the newest special's `next` is null. */
  predicate Lexed(heap: Heap, e: Entry)
  {
    && (forall k | 0 <= k < |e.back| :: e.back[k] in heap)
    && (|e.back| > 0 ==> heap[e.back[0]].next == Null)
    && (forall k | 0 <= k < |e.back| - 1 :: heap[e.back[k + 1]].next == To(e.back[k]))
  }

  function Reverse<T>(s: seq<T>): (r: seq<T>)
    ensures |r| == |s|
    ensures forall i | 0 <= i < |s| :: r[i] == s[|s| - 1 - i]
  {
    seq(|s|, i requires 0 <= i < |s| => s[|s| - 1 - i])
  }

  /** On a lexer-built heap the run emitted before a token is its special
      tokens oldest first: the `specialToken` walk reversed. */
  lemma SpecialsOldestFirst(heap: Heap, e: Entry)
    requires EntryLaid(heap, e) && Lexed(heap, e)
    ensures e.run == Reverse(e.back)
  {
    if |e.back| > 0 {
      var rev := Reverse(e.back);
      assert Path(heap, To(e.back[|e.back| - 1]), rev, true);
      PathUnique(heap, To(e.back[|e.back| - 1]), e.run, rev, true);
    }
  }

  /** All specials the list emits, in order. */
  function AllRuns(layout: seq<Entry>, rejectFirst: bool): seq<nat>
    decreases |layout|
  {
    if |layout| == 0 then []
    else SpecialHandles(layout[0], rejectFirst) + AllRuns(layout[1..], false)
  }

  lemma {:induction false} AllRunsMember(layout: seq<Entry>, rejectFirst: bool, x: nat)
    requires x in AllRuns(layout, rejectFirst)
    ensures exists j | 0 <= j < |layout| :: x in layout[j].run
    decreases |layout|
  {
    if !(!rejectFirst && x in layout[0].run) {
      AllRunsMember(layout[1..], false, x);
      var j :| 0 <= j < |layout[1..]| && x in layout[1..][j].run;
      assert x in layout[j + 1].run;
    }
  }

  lemma {:induction false} WrapAllCount(hs: seq<nat>, x: nat)
    ensures multiset(WrapAll(hs))[Wrap(x)] == multiset(hs)[x]
    decreases |hs|
  {
    if |hs| > 0 {
      var tail := hs[1..];
      assert hs == [hs[0]] + tail;
      WrapAllAppend([hs[0]], tail);
      assert WrapAll([hs[0]]) == [Wrap(hs[0])];
      WrapAllCount(tail, x);
    }
  }

  lemma {:induction false} FlattenMultiset(layout: seq<Entry>, rejectFirst: bool)
    ensures multiset(Flatten(layout, rejectFirst))
         == multiset(WrapAll(AllRuns(layout, rejectFirst))) + multiset(WrapAll(Regulars(layout)))
    decreases |layout|
  {
    if |layout| > 0 {
      var head := SpecialHandles(layout[0], rejectFirst);
      var tail := layout[1..];
      var w := Wrap(layout[0].tok);
      FlattenMultiset(tail, false);
      MultisetOfFlattenHead(WrapAll(head), w, Flatten(tail, false));
      WrapAllAppend(head, AllRuns(tail, false));
      RegularsCons(layout);
      WrapAllAppend([layout[0].tok], Regulars(tail));
      assert WrapAll([layout[0].tok]) == [w];
    }
  }

  lemma RegularsCons(layout: seq<Entry>)
    requires |layout| > 0
    ensures Regulars(layout) == [layout[0].tok] + Regulars(layout[1..])
  {
  }

  lemma MultisetOfFlattenHead(sp: seq<CFlatToken>, t: CFlatToken, rest: seq<CFlatToken>)
    ensures multiset(sp + [t] + rest) == multiset(sp) + multiset([t]) + multiset(rest)
  {
  }

  lemma {:induction false} DistinctCountOne(hs: seq<nat>, i: nat)
    requires i < |hs|
    requires forall a, b | 0 <= a < b < |hs| :: hs[a] != hs[b]
    ensures multiset(hs)[hs[i]] == 1
    decreases |hs|
  {
    assert hs == [hs[0]] + hs[1..];
    if i == 0 {
      assert hs[0] !in hs[1..];
    } else {
      DistinctCountOne(hs[1..], i - 1);
    }
  }

  /** On a lexer-built heap whose special tokens are not regular tokens,
      every regular token of the chain occurs exactly once in the list. */
  lemma RegularOnce(heap: Heap, first: Ref, layout: seq<Entry>, rejectFirst: bool, i: nat)
    requires Laid(heap, first, layout)
    requires forall j | 0 <= j < |layout| :: Lexed(heap, layout[j])
    requires forall j, k | 0 <= j < |layout| && 0 <= k < |layout| :: layout[j].tok !in layout[k].back
    requires i < |layout|
    ensures multiset(Flatten(layout, rejectFirst))[Wrap(layout[i].tok)] == 1
  {
    var x := layout[i].tok;
    FlattenMultiset(layout, rejectFirst);
    if x in AllRuns(layout, rejectFirst) {
      AllRunsMember(layout, rejectFirst, x);
      var j :| 0 <= j < |layout| && x in layout[j].run;
      assert EntryLaid(heap, layout[j]);
      SpecialsOldestFirst(heap, layout[j]);
      assert false;
    }
    WrapAllCount(AllRuns(layout, rejectFirst), x);
    WrapAllCount(Regulars(layout), x);
    PathDistinct(heap, first, Regulars(layout), true);
    DistinctCountOne(Regulars(layout), i);
  }

  /** When no image in the token list without the first specials holds a
      newline, the included line is the whole concatenation of the images. */
  lemma WholeLineWithoutNewline(heap: Heap, layout: seq<Entry>)
    requires forall i | 0 <= i < |layout| :: EntryLaid(heap, layout[i])
    requires forall k | 0 <= k < |Flatten(layout, true)| ::
      Flatten(layout, true)[k].token in heap && '\n' !in Image(heap, Flatten(layout, true)[k])
    ensures LineText(heap, layout) == Concat(Images(heap, Flatten(layout, true)))
  {
    ConcatAvoids(Images(heap, Flatten(layout, true)), '\n');
  }

  /** A chain `x ;` followed by `y` on the next line, with a space special
      before `;` and a newline special before `y`. */
  function ExampleHeap(): Heap
  {
    map[
      0 := Token(1, "x", 3, 5, To(1), Null),
      1 := Token(2, ";", 3, 7, To(2), To(3)),
      2 := Token(1, "y", 4, 1, Null, To(4)),
      3 := Token(9, " ", 3, 6, Null, Null),
      4 := Token(9, "\n", 3, 8, Null, Null)]
  }

  function ExampleLayout(): seq<Entry>
  {
    [Entry(0, [], []), Entry(1, [3], [3]), Entry(2, [4], [4])]
  }

  lemma ExampleLaid()
    ensures Laid(ExampleHeap(), To(0), ExampleLayout())
  {
    var heap, layout := ExampleHeap(), ExampleLayout();
    assert Regulars(layout) == [0, 1, 2];
    assert EntryLaid(heap, layout[0]);
    assert EntryLaid(heap, layout[1]);
    assert EntryLaid(heap, layout[2]);
  }

  /** On the example chain the token list without the first specials is `x`,
      space, `;`, newline, `y`, and the included line is `x ;`. */
  lemma IncludedLineExample()
    ensures Laid(ExampleHeap(), To(0), ExampleLayout())
    ensures Flatten(ExampleLayout(), true) == [Wrap(0), Wrap(3), Wrap(1), Wrap(4), Wrap(2)]
    ensures LineText(ExampleHeap(), ExampleLayout()) == "x ;"
  {
    ExampleLaid();
    var heap, layout := ExampleHeap(), ExampleLayout();
    var toks := [Wrap(0), Wrap(3), Wrap(1), Wrap(4), Wrap(2)];
    assert Flatten(layout[2..], false) == [Wrap(4), Wrap(2)];
    assert Flatten(layout[1..], false) == [Wrap(3), Wrap(1), Wrap(4), Wrap(2)];
    assert Flatten(layout, true) == toks;
    ExampleLine(heap, toks);
  }

  lemma ExampleLine(heap: Heap, toks: seq<CFlatToken>)
    requires heap == ExampleHeap()
    requires toks == [Wrap(0), Wrap(3), Wrap(1), Wrap(4), Wrap(2)]
    ensures FirstLine(Concat(Images(heap, toks))) == "x ;"
  {
    var images := Images(heap, toks);
    assert images == ["x", " ", ";", "\n", "y"];
    ConcatSnoc(images, 0);
    ConcatSnoc(images, 1);
    ConcatSnoc(images, 2);
    ConcatSnoc(images, 3);
    ConcatSnoc(images, 4);
    assert images[..0] == [];
    assert images[..5] == images;
    assert Concat(images) == "x ;\ny";
    FirstLineUnique("x ;\ny", "x ;");
  }
}
