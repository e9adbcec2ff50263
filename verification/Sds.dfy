/** Dynamic strings, their quoted form, and the splitting of a line into quoted arguments. */
module SdsStrings {
  import opened Bytes
  import opened SdsLine

  const QUOTE: byte := 34
  const BACKSLASH: byte := 92
  const SPACE: byte := 32

  // ---- Dynamic strings ----

  /** Where an index that may count from the end points. */
  function Position(i: int, len: nat): nat { if i >= 0 then i else if len + i < 0 then 0 else len + i }

  /** What sdsrange keeps: everything from position `start` to position `end`, both included. */
  function Range(s: seq<byte>, start: int, end: int): seq<byte> {
    var lo, hi := Position(start, |s|), Position(end, |s|);
    if lo >= |s| || lo > hi then [] else if hi >= |s| then s[lo..] else s[lo..hi + 1]
  }

  /** The characters that sdsrange keeps, one by one: those from position `start` to position `end`, where a negative
      position counts from the end, and from the first character if it would lie before that. */
  lemma {:induction false} RangeKeeps(s: seq<byte>, start: int, end: int, k: nat)
    requires k < |s|
    ensures var lo := if start >= 0 then start else if -start <= |s| then |s| + start else 0;
            var hi := if end >= 0 then end else if -end <= |s| then |s| + end else 0;
            var r := Range(s, start, end);
            (lo <= k <= hi <==> lo <= k < lo + |r|) && (lo <= k <= hi ==> r[k - lo] == s[k])
  {
  }

  lemma {:induction false} RangeOfEmpty(s: seq<byte>, start: int, end: int)
    requires s == []
    ensures Range(s, start, end) == s
  {
  }

  /** The arithmetic of sdsrange: where the kept part starts, and how long it is. */
  method Bounds(len: nat, start: int, end: int, ghost s: seq<byte>) returns (lo: nat, newlen: nat)
    requires len == |s| > 0
    ensures lo + newlen <= len && Range(s, start, end) == s[lo..lo + newlen]
  {
    var from := start;
    if from < 0 {
      from := len + from;
      if from < 0 { from := 0; }
    }
    var last := end;
    if last < 0 {
      last := len + last;
      if last < 0 { last := 0; }
    }
    var count := if from > last then 0 else last - from + 1;
    if count != 0 {
      if from >= len {
        count := 0;
      } else if last >= len {
        last := len - 1;
        count := if from > last then 0 else last - from + 1;
      }
    } else {
      from := 0;
    }
    newlen := count;
    lo := if count == 0 then 0 else from;
  }

  /** memmove to the front of the buffer. */
  method MoveToFront(b: array<byte>, lo: nat, n: nat)
    requires lo + n <= b.Length
    modifies b
    ensures b[..n] == old(b[lo..lo + n])
  {
    ghost var before := b[..];
    for i := 0 to n
      invariant forall k :: 0 <= k < i ==> b[k] == before[lo + k]
      invariant forall k :: i <= k < b.Length ==> b[k] == before[k]
    {
      b[i] := b[lo + i];
    }
  }

  /** An sds: the buffer has room for `len` used and `free` unused bytes and a terminating zero. */
  class Sds {
    var buf: array<byte>
    var len: nat
    var free: nat

    ghost predicate Valid()
      reads this, buf
    { buf.Length == len + free + 1 && buf[len] == 0 }

    ghost function Contents(): seq<byte>
      requires Valid()
      reads this, buf
    { buf[..len] }

    /** sdsnewlen. */
    constructor (init: seq<byte>)
      ensures Valid() && fresh(buf) && Contents() == init && free == 0
    {
      var b := new byte[|init| + 1](i => if 0 <= i < |init| then init[i] else 0);
      buf := b;
      len := |init|;
      free := 0;
      new;
      assert buf[..len] == init;
    }

    /** sdsMakeRoomFor: room for as much again as is needed, unless there is enough already. */
    method MakeRoomFor(addlen: nat)
      requires Valid()
      modifies this
      ensures Valid() && Contents() == old(Contents()) && len == old(len) && free >= addlen
      ensures buf == old(buf) || fresh(buf)
      ensures free == if old(free) >= addlen then old(free) else len + 2 * addlen
    {
      if free >= addlen { return; }
      var newlen := (len + addlen) * 2;
      var newbuf := new byte[newlen + 1];
      for i := 0 to len + 1
        invariant newbuf[..i] == buf[..i]
        modifies newbuf
      {
        newbuf[i] := buf[i];
      }
      assert newbuf[len] == newbuf[..len + 1][len] == buf[len];
      assert newbuf[..len] == newbuf[..len + 1][..len] == buf[..len];
      buf := newbuf;
      free := newlen - len;
    }

    /** sdscatlen. */
    method CatLen(t: seq<byte>)
      requires Valid()
      modifies this, buf
      ensures Valid() && Contents() == old(Contents()) + t && (buf == old(buf) || fresh(buf))
    {
      var curlen := len;
      MakeRoomFor(|t|);
      var b := buf;
      ghost var before := b[..curlen];
      for i := 0 to |t|
        invariant b[..curlen + i] == before + t[..i]
        modifies b
      {
        b[curlen + i] := t[i];
      }
      len := curlen + |t|;
      free := free - |t|;
      b[curlen + |t|] := 0;
      assert b[..len] == before + t;
    }

    /** sdsrange: the kept part moves to the front, and the rest becomes free. */
    method Cut(start: int, end: int)
      requires Valid()
      modifies this, buf
      ensures Valid() && buf == old(buf) && Contents() == Range(old(Contents()), start, end)
    {
      hide Range;
      ghost var before := buf[..len];
      if len == 0 {
        RangeOfEmpty(before, start, end);
        return;
      }
      var lo, newlen := Bounds(len, start, end, before);
      if lo != 0 && newlen != 0 { MoveToFront(buf, lo, newlen); }
      assert buf[..newlen] == before[lo..lo + newlen];
      buf[newlen] := 0;
      free := free + (len - newlen);
      len := newlen;
    }

    /** sdscatrepr. */
    method CatRepr(p: seq<byte>)
      requires Valid()
      modifies this, buf
      ensures Valid() && Contents() == old(Contents()) + Repr(p) && (buf == old(buf) || fresh(buf))
    {
      hide Escape;
      CatLen([QUOTE]);
      for i := 0 to |p|
        invariant Valid() && (buf == old(buf) || fresh(buf))
        invariant Contents() == old(Contents()) + [QUOTE] + Escapes(p[..i])
      {
        assert p[..i + 1] == p[..i] + [p[i]];
        EscapesAppend(p[..i], p[i]);
        CatLen(Escape(p[i]));
      }
      assert p[..|p|] == p;
      CatLen([QUOTE]);
    }
  }

  // ---- The quoted form ----

  predicate IsPrint(c: byte) { 32 <= c <= 126 }

  function LowerHex(v: nat): byte
    requires v < 16
  { if v < 10 then 48 + v else 97 + v - 10 }

  /** The cases of sdscatrepr. */
  function Escape(c: byte): (e: seq<byte>)
    ensures |e| > 0
  {
    if c == BACKSLASH || c == QUOTE then [BACKSLASH, c]
    else if c == 10 then [BACKSLASH, 110]
    else if c == 13 then [BACKSLASH, 114]
    else if c == 9 then [BACKSLASH, 116]
    else if c == 7 then [BACKSLASH, 97]
    else if c == 8 then [BACKSLASH, 98]
    else if IsPrint(c) then [c]
    else [BACKSLASH, 120, LowerHex(c / 16), LowerHex(c % 16)]
  }

  function Escapes(s: seq<byte>): seq<byte> {
    if s == [] then [] else Escape(s[0]) + Escapes(s[1..])
  }

  function Repr(s: seq<byte>): seq<byte> { [QUOTE] + Escapes(s) + [QUOTE] }

  lemma {:induction false} EscapesAppend(s: seq<byte>, c: byte)
    ensures Escapes(s + [c]) == Escapes(s) + Escape(c)
  {
    hide Escape;
    if s == [] {
      assert [c][1..] == [];
    } else {
      EscapesAppend(s[1..], c);
      assert (s + [c])[1..] == s[1..] + [c];
    }
  }

  /** The quoted forms with single spaces between them. */
  function Joined(args: seq<seq<byte>>): seq<byte> {
    if args == [] then [] else if |args| == 1 then Repr(args[0]) else Repr(args[0]) + [SPACE] + Joined(args[1..])
  }

  // ---- Splitting a line ----

  predicate IsBlank(c: byte) { c == 32 || 9 <= c <= 13 }

  /** The character at `p`; the line ends with a zero. */
  function CharAt(s: seq<byte>, p: nat): byte { if p < |s| then s[p] else 0 }

  function SkipBlanks(s: seq<byte>, p: nat): (q: nat)
    ensures p <= q
    ensures CharAt(s, q) == 0 || !IsBlank(CharAt(s, q))
    decreases |s| - p
  {
    if CharAt(s, p) != 0 && IsBlank(CharAt(s, p)) then SkipBlanks(s, p + 1) else p
  }

  datatype Token = Token(text: seq<byte>, next: nat) | BadQuotes

  /** What the character behind a backslash stands for. */
  function Unescape(c: byte): byte {
    if c == 110 then 10 else if c == 114 then 13 else if c == 116 then 9 else if c == 98 then 8
    else if c == 97 then 7 else c
  }

  /** The loop that gets a token, at `p`, inside or outside quotes, with `current` gathered so far. */
  function TokenFrom(s: seq<byte>, p: nat, quoted: bool, current: seq<byte>): (t: Token)
    ensures t.Token? ==> p <= t.next && (CharAt(s, p) != 0 && !(IsBlank(CharAt(s, p)) && !quoted) ==> p < t.next)
    decreases |s| - p
  {
    var c := CharAt(s, p);
    if quoted then
      if c == 0 then BadQuotes
      else if c == BACKSLASH && CharAt(s, p + 1) != 0 then TokenFrom(s, p + 2, true, current + [Unescape(CharAt(s, p + 1))])
      else if c == QUOTE then
        if CharAt(s, p + 1) != 0 && !IsBlank(CharAt(s, p + 1)) then BadQuotes else Token(current, p + 1)
      else TokenFrom(s, p + 1, true, current + [c])
    else if c == 0 then Token(current, p)
    else if c == 32 || c == 10 || c == 13 || c == 9 then Token(current, p + 1)
    else if c == QUOTE then TokenFrom(s, p + 1, true, current)
    else TokenFrom(s, p + 1, false, current + [c])
  }

  datatype Arguments = Arguments(args: seq<seq<byte>>) | Failure

  /** sdssplitargs from `p` on. */
  function SplitFrom(s: seq<byte>, p: nat): Arguments
    decreases |s| - p
  {
    var q := SkipBlanks(s, p);
    if CharAt(s, q) == 0 then Arguments([])
    else
      match TokenFrom(s, q, false, [])
      case BadQuotes => Failure
      case Token(text, next) =>
        match SplitFrom(s, next)
        case Failure => Failure
        case Arguments(rest) => Arguments([text] + rest)
  }

  /** The inner loop of sdssplitargs. */
  method GetToken(line: seq<byte>, start: nat) returns (ok: bool, current: seq<byte>, p: nat)
    requires CharAt(line, start) != 0 && !IsBlank(CharAt(line, start))
    ensures if ok then TokenFrom(line, start, false, []) == Token(current, p) && p > start
            else TokenFrom(line, start, false, []).BadQuotes?
  {
    ghost var goal := TokenFrom(line, start, false, []);
    current, p := [], start;
    var inq, done := false, false;
    while !done
      invariant if done then goal == Token(current, p) else goal == TokenFrom(line, p, inq, current)
      decreases |line| - p, !done
    {
      var c := CharAt(line, p);
      if inq {
        if c == BACKSLASH && CharAt(line, p + 1) != 0 {
          p := p + 1;
          current := current + [Unescape(CharAt(line, p))];
        } else if c == QUOTE {
          if CharAt(line, p + 1) != 0 && !IsBlank(CharAt(line, p + 1)) { return false, current, p; }
          done := true;
        } else if c == 0 {
          return false, current, p;
        } else {
          current := current + [c];
        }
      } else if c == 32 || c == 10 || c == 13 || c == 9 || c == 0 {
        done := true;
      } else if c == QUOTE {
        inq := true;
      } else {
        current := current + [c];
      }
      if CharAt(line, p) != 0 { p := p + 1; }
    }
    ok := true;
  }

  /** sdssplitargs: it fails exactly on the lines in which some word is broken, and gives the words of all others. */
  method SplitArgs(line: seq<byte>) returns (result: Arguments)
    ensures result == SplitFrom(line, 0)
    ensures forall lead, items, rest :: Line(line, lead, items, rest) && AtEnd(rest) ==> result == Arguments(Meanings(items))
    ensures forall lead, items, rest :: Line(line, lead, items, rest) && Broken(items, rest) ==> result == Failure
    ensures exists lead, items, rest :: Line(line, lead, items, rest) && (AtEnd(rest) || Broken(items, rest))
  {
    hide Line, AtEnd, Broken;
    result := SplitLine(line);
    assert line[0..] == line;
    forall lead, items, rest | Line(line, lead, items, rest) && AtEnd(rest) ensures result == Arguments(Meanings(items)) {
      WordsSplit(line, 0, lead, items, rest);
    }
    forall lead, items, rest | Line(line, lead, items, rest) && Broken(items, rest) ensures result == Failure {
      BrokenFails(line, 0, lead, items, rest);
    }
    var lead, items, rest := LineParts(line, 0);
  }

  /** The loops of sdssplitargs. */
  method SplitLine(line: seq<byte>) returns (result: Arguments)
    ensures result == SplitFrom(line, 0)
  {
    hide TokenFrom;
    var p: nat := 0;
    var vector: seq<seq<byte>> := [];
    while true
      invariant SplitFrom(line, 0) == Behind(vector, SplitFrom(line, p))
      decreases |line| - p
    {
      ghost var from := p;
      while CharAt(line, p) != 0 && IsBlank(CharAt(line, p))
        invariant from <= p && SkipBlanks(line, p) == SkipBlanks(line, from)
        decreases |line| - p
      {
        p := p + 1;
      }
      if CharAt(line, p) == 0 {
        assert vector + [] == vector;
        return Arguments(vector);
      }
      var ok, current, next := GetToken(line, p);
      if !ok { return Failure; }
      BehindBehind(vector, current, SplitFrom(line, next));
      vector := vector + [current];
      p := next;
    }
  }

  function Behind(first: seq<seq<byte>>, r: Arguments): Arguments {
    if r.Arguments? then Arguments(first + r.args) else r
  }

  lemma {:induction false} BehindBehind(first: seq<seq<byte>>, arg: seq<byte>, r: Arguments)
    ensures Behind(first + [arg], r) == Behind(first, Behind([arg], r))
  {
    if r.Arguments? { assert first + [arg] + r.args == first + ([arg] + r.args); }
  }

  // ---- The words of a line ----

  /** What stands behind a part. */
  lemma {:induction false} PartStands(s: seq<byte>, p: nat, a: seq<byte>, b: seq<byte>)
    requires p <= |s| && s[p..] == a + b
    ensures p + |a| <= |s| && s[p + |a|..] == b && forall i :: 0 <= i < |a| ==> s[p + i] == a[i]
  {
    assert s[p + |a|..] == s[p..][|a|..];
    forall i | 0 <= i < |a| ensures s[p + i] == a[i] { assert s[p + i] == s[p..][i] == (a + b)[i]; }
  }

  lemma {:induction false} CharFirst(s: seq<byte>, p: nat, rest: seq<byte>)
    requires p <= |s| && s[p..] == rest
    ensures CharAt(s, p) == (if rest == [] then 0 else rest[0]) && (AtEnd(rest) <==> CharAt(s, p) == 0)
    ensures rest != [] ==> p + 1 <= |s| && s[p + 1..] == rest[1..]
  {
    if rest != [] { assert s[p] == rest[0] && s[p + 1..] == s[p..][1..]; }
  }

  lemma {:induction false} BlankIff(c: byte)
    ensures IsBlank(c) <==> c as int in BLANKS
    ensures (c == 32 || c == 10 || c == 13 || c == 9) <==> c as int in SEPARATORS
  {
  }

  lemma {:induction false} BlanksSkipped(s: seq<byte>, p: nat, lead: seq<byte>, rest: seq<byte>)
    requires p <= |s| && s[p..] == lead + rest && AllBlank(lead) && (rest != [] ==> rest[0] as int !in BLANKS)
    ensures p + |lead| <= |s| && SkipBlanks(s, p) == p + |lead| && s[p + |lead|..] == rest
    decreases |lead|
  {
    CharFirst(s, p, lead + rest);
    BlankIff(CharAt(s, p));
    if lead == [] {
      assert lead + rest == rest;
    } else {
      assert (lead + rest)[1..] == lead[1..] + rest;
      BlanksSkipped(s, p + 1, lead[1..], rest);
    }
  }

  lemma {:induction false} PlainRead(s: seq<byte>, p: nat, plain: seq<byte>, rest: seq<byte>, current: seq<byte>)
    requires p <= |s| && s[p..] == plain + rest && forall i :: 0 <= i < |plain| ==> PlainByte(plain[i])
    ensures p + |plain| <= |s| && s[p + |plain|..] == rest
    ensures TokenFrom(s, p, false, current) == TokenFrom(s, p + |plain|, false, current + plain)
    decreases |plain|
  {
    if plain == [] {
      assert plain + rest == rest && current + plain == current;
    } else {
      CharFirst(s, p, plain + rest);
      BlankIff(plain[0]);
      assert (plain + rest)[1..] == plain[1..] + rest;
      PlainRead(s, p + 1, plain[1..], rest, current + [plain[0]]);
      assert current + [plain[0]] + plain[1..] == current + plain;
    }
  }

  lemma {:induction false} PiecesRead(s: seq<byte>, p: nat, pieces: seq<Piece>, rest: seq<byte>, current: seq<byte>)
    requires p <= |s| && s[p..] == PiecesText(pieces) + rest && GoodPieces(pieces)
    ensures p + |PiecesText(pieces)| <= |s| && s[p + |PiecesText(pieces)|..] == rest
    ensures TokenFrom(s, p, true, current) == TokenFrom(s, p + |PiecesText(pieces)|, true, current + PiecesMeaning(pieces))
    decreases |pieces|
  {
    hide TokenFrom, PieceText, PieceMeaning, GoodPiece;
    if pieces == [] {
      assert [] + rest == rest && current + [] == current;
    } else {
      var x, more := pieces[0], pieces[1..];
      assert PiecesText(pieces) + rest == PieceText(x) + (PiecesText(more) + rest);
      PartStands(s, p, PieceText(x), PiecesText(more) + rest);
      PieceRead(s, p, x, current);
      PiecesRead(s, p + |PieceText(x)|, more, rest, current + [PieceMeaning(x)]);
      assert current + [PieceMeaning(x)] + PiecesMeaning(more) == current + PiecesMeaning(pieces);
    }
  }

  lemma {:induction false} PieceRead(s: seq<byte>, p: nat, x: Piece, current: seq<byte>)
    requires GoodPiece(x) && p + |PieceText(x)| <= |s| && forall i :: 0 <= i < |PieceText(x)| ==> s[p + i] == PieceText(x)[i]
    ensures TokenFrom(s, p, true, current) == TokenFrom(s, p + |PieceText(x)|, true, current + [PieceMeaning(x)])
  {
    assert s[p + 0] == PieceText(x)[0];
    if x.Escaped? {
      assert s[p + 1] == PieceText(x)[1];
      UnescapeMeans(x.c);
    }
  }

  lemma {:induction false} UnescapeMeans(c: byte)
    ensures Unescape(c) == PieceMeaning(Escaped(c))
  {
  }

  /** One word, and where the next blanks begin. */
  lemma {:induction false} WordRead(s: seq<byte>, p: nat, x: Item, more: seq<byte>) returns (next: nat, gap: seq<byte>)
    requires p <= |s| && GoodItem(x) && s[p..] == WordText(x.word) + (x.gap + more)
    requires x.gap == [] ==> AtEnd(more)
    ensures CharAt(s, p) != 0 && !IsBlank(CharAt(s, p)) && p < next <= |s| && AllBlank(gap) && s[next..] == gap + more
    ensures TokenFrom(s, p, false, []) == Token(WordMeaning(x.word), next)
  {
    hide TokenFrom, PiecesText, PiecesMeaning;
    var w := x.word;
    var rest := x.gap + more;
    var quotes: seq<byte> := if w.quoted then [34] + PiecesText(w.pieces) + [34] else [];
    assert WordText(w) + rest == w.plain + (quotes + rest);
    CharFirst(s, p, w.plain + (quotes + rest));
    BlankIff(CharAt(s, p));
    PlainRead(s, p, w.plain, quotes + rest, []);
    assert [] + w.plain == w.plain;
    var q := p + |w.plain|;
    if w.quoted {
      next := QuotesRead(s, q, w, x.gap, more);
      gap := x.gap;
    } else {
      assert quotes + rest == rest;
      NoPieces(w);
      next, gap := PlainEnds(s, q, w.plain, x.gap, more);
    }
  }

  lemma {:induction false} NoPieces(w: Word)
    requires w.pieces == []
    ensures WordMeaning(w) == w.plain
  {
  }

  /** A word without quotes ends at a separator, which is taken, or at the end. */
  lemma {:induction false} PlainEnds(s: seq<byte>, q: nat, current: seq<byte>, gap: seq<byte>, more: seq<byte>)
    returns (next: nat, gap': seq<byte>)
    requires q <= |s| && s[q..] == gap + more && AllBlank(gap) && (gap == [] ==> AtEnd(more))
    requires gap != [] ==> gap[0] as int in SEPARATORS
    ensures q <= next <= |s| && AllBlank(gap') && s[next..] == gap' + more
    ensures TokenFrom(s, q, false, current) == Token(current, next)
  {
    CharFirst(s, q, gap + more);
    BlankIff(CharAt(s, q));
    if gap == [] {
      assert gap + more == more;
      next, gap' := q, [];
    } else {
      next, gap' := q + 1, gap[1..];
      assert (gap + more)[1..] == gap' + more;
    }
  }

  lemma {:induction false} QuotesRead(s: seq<byte>, q: nat, w: Word, gap: seq<byte>, more: seq<byte>) returns (next: nat)
    requires q <= |s| && w.quoted && GoodPieces(w.pieces) && AllBlank(gap) && (gap == [] ==> AtEnd(more))
    requires s[q..] == [34] + PiecesText(w.pieces) + [34] + (gap + more)
    ensures q < next <= |s| && s[next..] == gap + more
    ensures TokenFrom(s, q, false, w.plain) == Token(WordMeaning(w), next)
  {
    hide PiecesText, PiecesMeaning, TokenFrom, GoodPieces;
    var rest := gap + more;
    var body := PiecesText(w.pieces) + ([34] + rest);
    assert s[q..] == [34] + body;
    QuoteOpens(s, q, body, w.plain);
    PiecesRead(s, q + 1, w.pieces, [34] + rest, w.plain);
    var r := q + 1 + |PiecesText(w.pieces)|;
    QuoteCloses(s, r, rest, w.plain + PiecesMeaning(w.pieces));
    next := r + 1;
  }

  lemma {:induction false} QuoteOpens(s: seq<byte>, q: nat, body: seq<byte>, current: seq<byte>)
    requires q <= |s| && s[q..] == [34] + body
    ensures q < |s| && s[q + 1..] == body && TokenFrom(s, q, false, current) == TokenFrom(s, q + 1, true, current)
  {
    CharFirst(s, q, [34] + body);
    assert ([34] + body)[1..] == body;
  }

  lemma {:induction false} QuoteCloses(s: seq<byte>, r: nat, rest: seq<byte>, current: seq<byte>)
    requires r <= |s| && s[r..] == [34] + rest && (AtEnd(rest) || rest[0] as int in BLANKS)
    ensures r < |s| && s[r + 1..] == rest && TokenFrom(s, r, true, current) == Token(current, r + 1)
  {
    CharFirst(s, r, [34] + rest);
    assert ([34] + rest)[1..] == rest;
    CharFirst(s, r + 1, rest);
    BlankIff(CharAt(s, r + 1));
  }


  lemma {:induction false} FirstOfItem(x: Item)
    requires GoodItem(x)
    ensures |WordText(x.word)| > 0 && WordText(x.word)[0] as int !in BLANKS && WordText(x.word)[0] != 0
  {
  }

  /** The blanks in front of the first word are skipped. */
  lemma {:induction false} ToFirstWord(s: seq<byte>, p: nat, lead: seq<byte>, items: seq<Item>, rest: seq<byte>) returns (q: nat)
    requires p <= |s| && Line(s[p..], lead, items, rest) && items != []
    ensures q == SkipBlanks(s, p) <= |s| && p <= q
    ensures s[q..] == WordText(items[0].word) + (items[0].gap + (ItemsText(items[1..]) + rest))
  {
    hide WordText, SkipBlanks, AllBlank, GoodItem;
    var x := items[0];
    var text := WordText(x.word) + (x.gap + (ItemsText(items[1..]) + rest));
    FirstOfText(x, ItemsText(items[1..]) + rest);
    ItemsTextStep(items, rest);
    BlanksSkipped(s, p, lead, text);
    q := p + |lead|;
  }

  lemma {:induction false} FirstOfText(x: Item, more: seq<byte>)
    requires GoodItem(x)
    ensures var text := WordText(x.word) + (x.gap + more); text != [] && text[0] as int !in BLANKS
  {
    hide WordText;
    FirstOfItem(x);
  }

  lemma {:induction false} ItemsTextStep(items: seq<Item>, rest: seq<byte>)
    requires items != []
    ensures ItemsText(items) + rest == WordText(items[0].word) + (items[0].gap + (ItemsText(items[1..]) + rest))
  {
    hide WordText;
  }

  lemma {:induction false} TailGood(items: seq<Item>)
    requires GoodItems(items) && items != []
    ensures GoodItem(items[0]) && GoodItems(items[1..]) && (|items| > 1 ==> items[0].gap != [])
  {
    forall i | 0 <= i < |items[1..]|
      ensures GoodItem(items[1..][i]) && (i + 1 < |items[1..]| ==> items[1..][i].gap != [])
    {
      assert items[1..][i] == items[i + 1];
    }
  }

  lemma {:induction false} SplitStep(s: seq<byte>, p: nat, q: nat, text: seq<byte>, next: nat)
    requires q == SkipBlanks(s, p) && CharAt(s, q) != 0 && TokenFrom(s, q, false, []) == Token(text, next)
    ensures SplitFrom(s, p) ==
      match SplitFrom(s, next) { case Failure => Failure case Arguments(rest) => Arguments([text] + rest) }
  {
    hide TokenFrom;
  }

  /** A line of words splits into the words. */
  lemma {:induction false} WordsSplit(s: seq<byte>, p: nat, lead: seq<byte>, items: seq<Item>, rest: seq<byte>)
    requires p <= |s| && Line(s[p..], lead, items, rest) && AtEnd(rest)
    ensures SplitFrom(s, p) == Arguments(Meanings(items))
    decreases |items|
  {
    hide TokenFrom, SplitFrom, WordText, WordMeaning, GoodItem;
    if items == [] {
      assert lead + ([] + rest) == lead + rest;
      BlanksSkipped(s, p, lead, rest);
      CharFirst(s, p + |lead|, rest);
      SplitEnd(s, p);
    } else {
      TailGood(items);
      var q := ToFirstWord(s, p, lead, items, rest);
      var next, gap := WordRead(s, q, items[0], ItemsText(items[1..]) + rest);
      WordsSplit(s, next, gap, items[1..], rest);
      SplitStep(s, p, q, WordMeaning(items[0].word), next);
    }
  }

  lemma {:induction false} SplitEnd(s: seq<byte>, p: nat)
    requires CharAt(s, SkipBlanks(s, p)) == 0
    ensures SplitFrom(s, p) == Arguments([])
  {
  }

  /** A line with a broken word is refused, whatever words come before. */
  lemma {:induction false} BrokenFails(s: seq<byte>, p: nat, lead: seq<byte>, items: seq<Item>, rest: seq<byte>)
    requires p <= |s| && Line(s[p..], lead, items, rest) && Broken(items, rest)
    ensures SplitFrom(s, p) == Failure
    decreases |items|
  {
    hide TokenFrom, SplitFrom, WordText, WordMeaning, GoodItem, BrokenWord;
    if items == [] {
      assert lead + ([] + rest) == lead + rest;
      BrokenStart(s, p, lead, rest);
    } else {
      TailGood(items);
      var q := ToFirstWord(s, p, lead, items, rest);
      var next, gap := WordRead(s, q, items[0], ItemsText(items[1..]) + rest);
      BrokenFails(s, next, gap, items[1..], rest);
      SplitStep(s, p, q, WordMeaning(items[0].word), next);
    }
  }

  lemma {:induction false} BrokenStart(s: seq<byte>, p: nat, lead: seq<byte>, rest: seq<byte>)
    requires p <= |s| && s[p..] == lead + rest && AllBlank(lead) && BrokenWord(rest)
    ensures SplitFrom(s, p) == Failure
  {
    hide TokenFrom, PiecesText, BrokenTail, GoodPieces, SkipBlanks, SplitFrom;
    var plain, pieces, tail :| BrokenWordParts(rest, plain, pieces, tail);
    var body := [34] + (PiecesText(pieces) + tail);
    BrokenFirst(rest, plain, body);
    BlanksSkipped(s, p, lead, rest);
    var q := p + |lead|;
    CharFirst(s, q, rest);
    PlainRead(s, q, plain, body, []);
    assert [] + plain == plain;
    BrokenQuotes(s, q + |plain|, pieces, tail, plain);
    SplitBroken(s, p);
  }

  lemma {:induction false} BrokenFirst(rest: seq<byte>, plain: seq<byte>, body: seq<byte>)
    requires rest == plain + body && GoodPlain(plain) && body != [] && body[0] == 34
    ensures rest != [] && rest[0] as int !in BLANKS && rest[0] != 0
  {
    assert rest[0] == if plain == [] then 34 else plain[0];
  }

  lemma {:induction false} SplitBroken(s: seq<byte>, p: nat)
    requires CharAt(s, SkipBlanks(s, p)) != 0 && TokenFrom(s, SkipBlanks(s, p), false, []).BadQuotes?
    ensures SplitFrom(s, p) == Failure
  {
    hide TokenFrom;
  }

  lemma {:induction false} BrokenQuotes(s: seq<byte>, q: nat, pieces: seq<Piece>, tail: seq<byte>, current: seq<byte>)
    requires q <= |s| && s[q..] == [34] + (PiecesText(pieces) + tail) && GoodPieces(pieces) && BrokenTail(tail)
    ensures TokenFrom(s, q, false, current) == BadQuotes
  {
    hide PiecesText, PiecesMeaning;
    var body := PiecesText(pieces) + tail;
    CharFirst(s, q, [34] + body);
    assert ([34] + body)[1..] == body;
    PiecesRead(s, q + 1, pieces, tail, current);
    var r := q + 1 + |PiecesText(pieces)|;
    CharFirst(s, r, tail);
    if !AtEnd(tail) {
      CharFirst(s, r + 1, tail[1..]);
      BlankIff(CharAt(s, r + 1));
    }
  }

  // ---- Every line has its words ----

  lemma {:induction false} LineParts(s: seq<byte>, p: nat) returns (lead: seq<byte>, items: seq<Item>, rest: seq<byte>)
    requires p <= |s|
    ensures Line(s[p..], lead, items, rest) && (AtEnd(rest) || Broken(items, rest))
    ensures p < |s| && s[p] as int in BLANKS ==> lead != []
    ensures AtEnd(s[p..]) ==> items == []
    decreases |s| - p
  {
    hide BrokenWord, GoodItem;
    var q := BlanksEnd(s, p);
    lead := s[p..q];
    if AtEnd(s[q..]) {
      items, rest := [], s[q..];
      assert s[p..] == lead + ([] + rest);
    } else {
      var ok, w, next := WordParts(s, q);
      if ok {
        var gap, more;
        gap, more, rest := LineParts(s, next);
        items := [Item(w, gap)] + more;
        OneMoreItem(s, p, q, next, lead, w, gap, more, rest);
      } else {
        items, rest := [], s[q..];
        assert s[p..] == lead + ([] + rest);
      }
    }
  }

  lemma {:induction false} BlanksEnd(s: seq<byte>, p: nat) returns (q: nat)
    requires p <= |s|
    ensures p <= q <= |s| && AllBlank(s[p..q]) && (q < |s| ==> s[q] as int !in BLANKS)
    decreases |s| - p
  {
    q := p;
    if p < |s| && s[p] as int in BLANKS {
      q := BlanksEnd(s, p + 1);
      assert s[p..q] == [s[p]] + s[p + 1..q];
    }
  }

  /** The word that begins at `q`, and where it ends, unless it is broken. */
  lemma {:induction false} WordParts(s: seq<byte>, q: nat) returns (ok: bool, w: Word, next: nat)
    requires q < |s| && s[q] != 0 && s[q] as int !in BLANKS
    ensures ok ==> q < next <= |s| && GoodWord(w) && s[q..next] == WordText(w)
    ensures ok && !AtEnd(s[next..]) ==> s[next] as int in if w.quoted then BLANKS else SEPARATORS
    ensures !ok ==> BrokenWord(s[q..])
  {
    hide PiecesText;
    var r := PlainEnd(s, q);
    var plain := s[q..r];
    ok, next := true, r;
    w := Word(plain, false, []);
    if r < |s| && s[r] == 34 {
      var pieces, e := PiecesEnd(s, r + 1);
      var tail := s[e..];
      assert s[r + 1..] == s[r + 1..e] + tail;
      assert s[q..] == plain + ([34] + (PiecesText(pieces) + tail));
      if BrokenTail(tail) {
        assert BrokenWordParts(s[q..], plain, pieces, tail);
        ok := false;
      } else {
        w, next := Word(plain, true, pieces), e + 1;
        assert s[q..next] == plain + ([34] + s[r + 1..e] + [34]);
        assert s[next..] == tail[1..];
      }
    } else {
      assert plain + [] == plain;
    }
  }

  lemma {:induction false} PlainEnd(s: seq<byte>, p: nat) returns (q: nat)
    requires p <= |s|
    ensures p <= q <= |s| && (forall i :: 0 <= i < |s[p..q]| ==> PlainByte(s[p..q][i]))
    ensures q < |s| ==> !PlainByte(s[q])
    decreases |s| - p
  {
    q := p;
    if p < |s| && PlainByte(s[p]) {
      q := PlainEnd(s, p + 1);
      assert s[p..q] == [s[p]] + s[p + 1..q];
    }
  }

  /** As many pieces as there are. */
  lemma {:induction false} PiecesEnd(s: seq<byte>, p: nat) returns (pieces: seq<Piece>, q: nat)
    requires p <= |s|
    ensures p <= q <= |s| && GoodPieces(pieces) && s[p..q] == PiecesText(pieces)
    ensures AtEnd(s[q..]) || s[q] == 34 || (s[q] == 92 && AtEnd(s[q + 1..]))
    decreases |s| - p
  {
    pieces, q := [], p;
    if p < |s| && s[p] != 0 && s[p] != 34 && !(s[p] == 92 && AtEnd(s[p + 1..])) {
      var x := if s[p] == 92 then Escaped(s[p + 1]) else Raw(s[p]);
      var n := |PieceText(x)|;
      var more;
      more, q := PiecesEnd(s, p + n);
      pieces := [x] + more;
      assert s[p..q] == s[p..p + n] + s[p + n..q];
      assert s[p..p + n] == PieceText(x);
    }
  }

  lemma {:induction false} OneMoreItem(s: seq<byte>, p: nat, q: nat, next: nat, lead: seq<byte>, w: Word, gap: seq<byte>,
                                       more: seq<Item>, rest: seq<byte>)
    requires p <= q < next <= |s| && lead == s[p..q] && AllBlank(lead) && GoodWord(w) && s[q..next] == WordText(w)
    requires Line(s[next..], gap, more, rest) && (AtEnd(rest) || Broken(more, rest))
    requires !AtEnd(s[next..]) ==> s[next] as int in if w.quoted then BLANKS else SEPARATORS
    requires next < |s| && s[next] as int in BLANKS ==> gap != []
    requires AtEnd(s[next..]) ==> more == []
    ensures var items := [Item(w, gap)] + more; Line(s[p..], lead, items, rest) && (AtEnd(rest) || Broken(items, rest))
  {
    hide BrokenWord, WordText, GoodWord;
    var x := Item(w, gap);
    var items := [x] + more;
    assert items[1..] == more;
    assert ItemsText(items) + rest == WordText(w) + (gap + (ItemsText(more) + rest));
    assert s[p..] == lead + (s[q..next] + s[next..]);
    if gap == [] {
      assert [] + (ItemsText(more) + rest) == rest;
    } else {
      assert gap[0] == s[next..][0];
    }
    forall i | 0 <= i < |items| ensures GoodItem(items[i]) && (i + 1 < |items| ==> items[i].gap != []) {
      if i > 0 { assert items[i] == more[i - 1]; }
    }
  }

  // ---- Reading back ----

  /** The bytes whose escapes are decoded again; the others get a hexadecimal escape, which is not. */
  predicate Decodable(c: byte) { IsPrint(c) || c == 10 || c == 13 || c == 9 || c == 7 || c == 8 }

  /** The printable characters of ASCII, and bell, backspace, tab, newline and carriage return. */
  ghost predicate Readable(c: byte) { 32 <= c <= 126 || c as int in {7, 8, 9, 10, 13} }

  lemma {:induction false} DecodableIsReadable(c: byte)
    ensures Decodable(c) <==> Readable(c)
  {
  }

  ghost predicate SpellsLower(digit: byte, v: int) { digit as int == if v < 10 then 48 + v else 97 + (v - 10) }

  /** All other bytes are written with two hexadecimal digits of lower case. */
  lemma {:induction false} UnreadableIsHex(c: byte)
    requires !Readable(c)
    ensures |Escape(c)| == 4 && Escape(c)[0] == 92 && Escape(c)[1] == 120
    ensures SpellsLower(Escape(c)[2], c as int / 16) && SpellsLower(Escape(c)[3], c as int % 16)
  {
  }

  /** What the escape of a byte is read as. */
  function Reread(c: byte): (r: seq<byte>)
    ensures |r| > 0 && (Decodable(c) <==> r == [c])
  {
    if Decodable(c) then [c] else [120, LowerHex(c / 16), LowerHex(c % 16)]
  }

  function RereadAll(s: seq<byte>): seq<byte> {
    if s == [] then [] else Reread(s[0]) + RereadAll(s[1..])
  }

  function RereadArgs(args: seq<seq<byte>>): (r: seq<seq<byte>>)
    ensures |r| == |args| && forall i :: 0 <= i < |args| ==> r[i] == RereadAll(args[i])
  {
    if args == [] then [] else [RereadAll(args[0])] + RereadArgs(args[1..])
  }

  lemma {:induction false} RereadLength(s: seq<byte>)
    ensures |RereadAll(s)| >= |s|
    ensures RereadAll(s) == s <==> forall i :: 0 <= i < |s| ==> Decodable(s[i])
  {
    if s != [] {
      RereadLength(s[1..]);
      if Decodable(s[0]) {
        assert RereadAll(s) == [s[0]] + RereadAll(s[1..]) && s == [s[0]] + s[1..];
        if RereadAll(s) == s { assert RereadAll(s[1..]) == RereadAll(s)[1..] == s[1..]; }
        assert forall i :: 0 < i < |s| ==> s[i] == s[1..][i - 1];
      }
    }
  }

  lemma {:induction false} EscapeRereads(s: seq<byte>, p: nat, c: byte, current: seq<byte>)
    requires p + |Escape(c)| <= |s| && s[p..p + |Escape(c)|] == Escape(c)
    ensures TokenFrom(s, p, true, current) == TokenFrom(s, p + |Escape(c)|, true, current + Reread(c))
  {
    var e := Escape(c);
    assert s[p] == s[p..p + |e|][0] == e[0];
    if |e| > 1 { assert s[p + 1] == s[p..p + |e|][1] == e[1]; }
    if |e| == 4 {
      var h, l := LowerHex(c / 16), LowerHex(c % 16);
      assert s[p + 2] == s[p..p + |e|][2] == h && s[p + 3] == s[p..p + |e|][3] == l;
      assert Plain(h) && Plain(l);
      assert TokenFrom(s, p, true, current) == TokenFrom(s, p + 2, true, current + [120]);
      assert TokenFrom(s, p + 2, true, current + [120]) == TokenFrom(s, p + 3, true, current + [120] + [h]);
      assert TokenFrom(s, p + 3, true, current + [120] + [h]) == TokenFrom(s, p + 4, true, current + [120] + [h] + [l]);
      assert current + [120] + [h] + [l] == current + [120, h, l];
    }
  }

  predicate Plain(c: byte) { c != 0 && c != QUOTE && c != BACKSLASH }

  lemma {:induction false} EscapesReread(s: seq<byte>, p: nat, arg: seq<byte>, current: seq<byte>)
    requires p + |Escapes(arg)| <= |s| && s[p..p + |Escapes(arg)|] == Escapes(arg)
    ensures TokenFrom(s, p, true, current) == TokenFrom(s, p + |Escapes(arg)|, true, current + RereadAll(arg))
    decreases |arg|
  {
    hide Escape, Reread, TokenFrom;
    if arg == [] {
      assert current + [] == current;
    } else {
      var n, all := |Escape(arg[0])|, |Escapes(arg)|;
      assert s[p..p + n] == s[p..p + all][..n] && s[p + n..p + all] == s[p..p + all][n..];
      EscapeRereads(s, p, arg[0], current);
      EscapesReread(s, p + n, arg[1..], current + Reread(arg[0]));
      assert current + Reread(arg[0]) + RereadAll(arg[1..]) == current + RereadAll(arg);
    }
  }

  lemma {:induction false} MiddlePart(s: seq<byte>, p: nat, a: seq<byte>, b: seq<byte>, c: seq<byte>)
    requires p + |a| + |b| + |c| <= |s| && s[p..p + |a| + |b| + |c|] == a + b + c
    ensures s[p + |a|..p + |a| + |b|] == b
  {
    var t := s[p..p + |a| + |b| + |c|];
    forall i | 0 <= i < |b| ensures s[p + |a| + i] == b[i] {
      assert t[|a| + i] == s[p + (|a| + i)];
      assert t[|a| + i] == (a + b + c)[|a| + i];
    }
    assert s[p + |a|..p + |a| + |b|] == b;
  }

  /** One quoted argument, followed by the end of the line or a space. */
  lemma {:induction false} ReprReads(s: seq<byte>, p: nat, arg: seq<byte>)
    requires p + |Repr(arg)| <= |s| && s[p..p + |Repr(arg)|] == Repr(arg)
    requires p + |Repr(arg)| < |s| ==> s[p + |Repr(arg)|] == SPACE
    ensures TokenFrom(s, p, false, []) == Token(RereadAll(arg), p + |Repr(arg)|)
    ensures SkipBlanks(s, p) == p && CharAt(s, p) == QUOTE
  {
    hide Escapes, RereadAll;
    var e := Escapes(arg);
    var all := |Repr(arg)|;
    assert s[p] == s[p..p + all][0] && s[p + 1 + |e|] == s[p..p + all][1 + |e|];
    MiddlePart(s, p, [QUOTE], e, [QUOTE]);
    EscapesReread(s, p + 1, arg, []);
    assert [] + RereadAll(arg) == RereadAll(arg);
  }

  lemma {:induction false} SplitJoined(s: seq<byte>, p: nat, args: seq<seq<byte>>)
    requires p <= |s| && s[p..] == Joined(args)
    ensures SplitFrom(s, p) == Arguments(RereadArgs(args))
    decreases |args|
  {
    hide TokenFrom, Repr, RereadAll, SkipBlanks, SplitFrom;
    if args == [] {
      NoBlanks(s, p);
    } else {
      var n := |Repr(args[0])|;
      assert s[p..p + n] == s[p..][..n];
      if |args| > 1 { assert s[p + n] == s[p..][n]; }
      ReprReads(s, p, args[0]);
      if |args| > 1 {
        assert s[p + n + 1..] == s[p..][n + 1..] == Joined(args[1..]);
        SplitJoined(s, p + n + 1, args[1..]);
        BehindSpace(s, p + n);
      } else {
        SplitJoined(s, p + n, []);
      }
      SplitOne(s, p, RereadAll(args[0]), p + n, RereadArgs(args[1..]));
    }
  }

  lemma {:induction false} NoBlanks(s: seq<byte>, p: nat)
    requires p <= |s| && s[p..] == []
    ensures SplitFrom(s, p) == Arguments([])
  {
  }

  lemma {:induction false} SplitOne(s: seq<byte>, p: nat, text: seq<byte>, next: nat, rest: seq<seq<byte>>)
    requires SkipBlanks(s, p) == p && CharAt(s, p) == QUOTE && TokenFrom(s, p, false, []) == Token(text, next)
    requires SplitFrom(s, next) == Arguments(rest)
    ensures SplitFrom(s, p) == Arguments([text] + rest)
  {
    hide TokenFrom;
  }

  lemma {:induction false} BehindSpace(s: seq<byte>, p: nat)
    requires p < |s| && s[p] == SPACE
    ensures SplitFrom(s, p) == SplitFrom(s, p + 1)
  {
  }

  /** Main result: splitting the quoted forms of any strings gives one argument for each, the string itself exactly
      when all its bytes are printable or one of newline, carriage return, tab, bell and backspace; so the whole list is
      read back exactly when that holds of all its bytes. */
  lemma {:induction false} QuotingRoundTrip(args: seq<seq<byte>>)
    ensures SplitFrom(Joined(args), 0) == Arguments(RereadArgs(args))
    ensures forall i :: 0 <= i < |args| ==>
      (RereadArgs(args)[i] == args[i] <==> forall j :: 0 <= j < |args[i]| ==> Readable(args[i][j]))
    ensures SplitFrom(Joined(args), 0) == Arguments(args) <==>
      forall i, j :: 0 <= i < |args| && 0 <= j < |args[i]| ==> Readable(args[i][j])
  {
    hide SplitFrom, Joined, RereadAll, Decodable, Readable;
    forall c: byte ensures Decodable(c) <==> Readable(c) { DecodableIsReadable(c); }
    assert Joined(args)[0..] == Joined(args);
    SplitJoined(Joined(args), 0, args);
    forall i | 0 <= i < |args|
      ensures RereadArgs(args)[i] == args[i] <==> forall j :: 0 <= j < |args[i]| ==> Readable(args[i][j])
    {
      RereadLength(args[i]);
    }
    assert RereadArgs(args) == args <==> forall i :: 0 <= i < |args| ==> RereadArgs(args)[i] == args[i];
  }
}
