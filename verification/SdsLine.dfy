/** The lines that sdssplitargs accepts and refuses, told without its loops: words, the blanks between them, and what is
    broken where a line is refused. */
module SdsLine {
  import opened Bytes

  /** What isspace accepts, and what ends a word outside quotes: vertical tab and form feed do not. */
  const BLANKS: set<int> := {32, 9, 10, 11, 12, 13}
  const SEPARATORS: set<int> := {32, 9, 10, 13}

  /** The letters behind a backslash that stand for a control character; every other character stands for itself. */
  const CONTROLS: map<int, int> := map[110 := 10, 114 := 13, 116 := 9, 98 := 8, 97 := 7]

  /** A piece of a quoted part. */
  datatype Piece = Raw(c: byte) | Escaped(c: byte)

  predicate GoodPiece(x: Piece) { x.c != 0 && (x.Raw? ==> x.c != 34 && x.c != 92) }

  function PieceText(x: Piece): seq<byte> { if x.Raw? then [x.c] else [92, x.c] }

  function PieceMeaning(x: Piece): byte {
    if x.Escaped? && x.c as int in CONTROLS then CONTROLS[x.c as int] as byte else x.c
  }

  ghost predicate GoodPieces(xs: seq<Piece>) { forall i :: 0 <= i < |xs| ==> GoodPiece(xs[i]) }

  function PiecesText(xs: seq<Piece>): seq<byte> {
    if xs == [] then [] else PieceText(xs[0]) + PiecesText(xs[1..])
  }

  function PiecesMeaning(xs: seq<Piece>): seq<byte> {
    if xs == [] then [] else [PieceMeaning(xs[0])] + PiecesMeaning(xs[1..])
  }

  /** A word: a part without quotes, and perhaps a quoted part behind it. */
  datatype Word = Word(plain: seq<byte>, quoted: bool, pieces: seq<Piece>)

  predicate PlainByte(c: byte) { c != 0 && c != 34 && c as int !in SEPARATORS }

  ghost predicate GoodPlain(plain: seq<byte>) {
    (forall i :: 0 <= i < |plain| ==> PlainByte(plain[i])) && (plain != [] ==> plain[0] as int !in BLANKS)
  }

  ghost predicate GoodWord(w: Word) {
    GoodPlain(w.plain) && GoodPieces(w.pieces) && (w.plain == [] ==> w.quoted) && (!w.quoted ==> w.pieces == [])
  }

  function WordText(w: Word): seq<byte> {
    w.plain + if w.quoted then [34] + PiecesText(w.pieces) + [34] else []
  }

  function WordMeaning(w: Word): seq<byte> { w.plain + PiecesMeaning(w.pieces) }

  /** A word and the blanks behind it. */
  datatype Item = Item(word: Word, gap: seq<byte>)

  ghost predicate AllBlank(s: seq<byte>) { forall i :: 0 <= i < |s| ==> s[i] as int in BLANKS }

  ghost predicate GoodItem(x: Item) {
    GoodWord(x.word) && AllBlank(x.gap) && (x.gap != [] && !x.word.quoted ==> x.gap[0] as int in SEPARATORS)
  }

  ghost predicate GoodItems(xs: seq<Item>) {
    forall i :: 0 <= i < |xs| ==> GoodItem(xs[i]) && (i + 1 < |xs| ==> xs[i].gap != [])
  }

  function ItemsText(xs: seq<Item>): seq<byte> {
    if xs == [] then [] else WordText(xs[0].word) + (xs[0].gap + ItemsText(xs[1..]))
  }

  function Meanings(xs: seq<Item>): (r: seq<seq<byte>>)
    ensures |r| == |xs|
  {
    if xs == [] then [] else [WordMeaning(xs[0].word)] + Meanings(xs[1..])
  }

  /** The string ends here, or a zero ends it. */
  predicate AtEnd(s: seq<byte>) { s == [] || s[0] == 0 }

  /** The line consists of blanks, words with blanks between them, and a rest. */
  ghost predicate Line(line: seq<byte>, lead: seq<byte>, items: seq<Item>, rest: seq<byte>) {
    AllBlank(lead) && GoodItems(items) && line == lead + (ItemsText(items) + rest)
  }

  /** Behind a quoted part: the end, also behind a lone backslash, or a quote that neither a blank nor the end follows. */
  ghost predicate BrokenTail(tail: seq<byte>) {
    || AtEnd(tail)
    || (tail[0] == 92 && AtEnd(tail[1..]))
    || (tail[0] == 34 && !AtEnd(tail[1..]) && tail[1] as int !in BLANKS)
  }

  /** A word begins whose quoted part is not closed properly. */
  ghost predicate BrokenWord(rest: seq<byte>) {
    exists plain, pieces, tail :: BrokenWordParts(rest, plain, pieces, tail)
  }

  ghost predicate BrokenWordParts(rest: seq<byte>, plain: seq<byte>, pieces: seq<Piece>, tail: seq<byte>) {
    GoodPlain(plain) && GoodPieces(pieces) && BrokenTail(tail) && rest == plain + ([34] + (PiecesText(pieces) + tail))
  }

  /** The rest of the line is a broken word, apart from the words before it. */
  ghost predicate Broken(items: seq<Item>, rest: seq<byte>) {
    (items != [] ==> items[|items| - 1].gap != []) && BrokenWord(rest)
  }
}
