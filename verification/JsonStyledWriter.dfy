/** The indenting writer of JSON values, with its cache of child texts. */
module JsonStyledWriter {
  import opened Bytes
  import opened JsonValue
  import opened JsonParser
  import opened JsonText
  import opened JsonWriter

  const RIGHT_MARGIN := 74
  const INDENT_SIZE := 3
  const SPACE: byte := 32
  const NEWLINE: byte := 10

  /** The second text is the first followed by these tokens, with white space around them. */
  ghost predicate Grown(a: seq<byte>, b: seq<byte>, ts: seq<Tok>) {
    |a| <= |b| && b[..|a|] == a && Spaced(b[|a|..], ts)
  }

  lemma {:induction false} GrowNot(a: seq<byte>)
    ensures Grown(a, a, [])
  {
    assert a[..|a|] == a && a[|a|..] == [];
  }

  /** Appending a text with tokens of its own. */
  lemma {:induction false} GrowBy(a: seq<byte>, b: seq<byte>, ts: seq<Tok>, text: seq<byte>, us: seq<Tok>)
    requires Grown(a, b, ts) && Spaced(text, us)
    ensures Grown(a, b + text, ts + us)
  {
    hide Spaced;
    assert (b + text)[..|a|] == a && (b + text)[|a|..] == b[|a|..] + text;
    SpacedAppend(b[|a|..], ts, text, us);
  }

  lemma {:induction false} GrowOn(a: seq<byte>, b: seq<byte>, ts: seq<Tok>, c: seq<byte>, us: seq<Tok>)
    requires Grown(a, b, ts) && Grown(b, c, us)
    ensures Grown(a, c, ts + us)
  {
    hide Spaced;
    assert c == b + c[|b|..];
    GrowBy(a, b, ts, c[|b|..], us);
  }

  lemma {:induction false} BlankIsSpaced(blank: seq<byte>)
    requires Blank(blank)
    ensures Spaced(blank, [])
  {
  }

  /** A token with white space on both sides. */
  lemma {:induction false} TokenWithin(before: seq<byte>, t: Tok, after: seq<byte>)
    requires Blank(before) && Blank(after)
    ensures Spaced(before + TokText(t) + after, [t])
  {
    hide TokText;
    BlankIsSpaced(after);
    SpacedToken(t);
    SpacedBlank(before, TokText(t), [t]);
    SpacedAppend(before + TokText(t), [t], after, []);
    assert [t] + [] == [t];
  }

  // ---- The layout of arrays ----

  /** A value that is written as one piece: a scalar, or an empty array or object. */
  predicate Simple(v: Value) { (v.Arr? || v.Obj?) ==> Size(v) == 0 }

  /** The piece. */
  function SimpleText(v: Value, show: real -> seq<byte>): seq<byte> { FastText(Tokens(v, show), false) }

  function ElementText(v: Value, i: nat, show: real -> seq<byte>): seq<byte>
    requires v.Arr?
  {
    SimpleText(Get(v.entries, Index(i)), show)
  }

  predicate AllSimple(v: Value, n: nat)
    requires v.Arr?
  {
    forall i :: 0 <= i < n ==> Simple(Get(v.entries, Index(i)))
  }

  /** What the first `n` elements take on one line. */
  function LineLength(v: Value, n: nat, show: real -> seq<byte>): int
    requires v.Arr?
  {
    if n == 0 then 4 + (ArraySize(v.entries) - 1) * 2 else LineLength(v, n - 1, show) + |ElementText(v, n - 1, show)|
  }

  /** An array is spread over several lines when it has 25 elements or more, or one that is a nonempty container, or
      when its line would reach the margin. */
  predicate IsMultiline(v: Value, show: real -> seq<byte>)
    requires v.Arr?
  {
    var size := ArraySize(v.entries);
    size * 3 >= RIGHT_MARGIN || !AllSimple(v, size) || LineLength(v, size, show) >= RIGHT_MARGIN
  }

  /** The first `n` elements, with a comma and a space between them. */
  function LineItems(v: Value, n: nat, show: real -> seq<byte>): seq<byte>
    requires v.Arr?
  {
    if n == 0 then []
    else LineItems(v, n - 1, show) + (if n == 1 then [] else [44, SPACE]) + ElementText(v, n - 1, show)
  }

  /** The array on one line. */
  function OneLine(v: Value, show: real -> seq<byte>): seq<byte>
    requires v.Arr?
  {
    [91, SPACE] + LineItems(v, ArraySize(v.entries), show) + [SPACE, 93]
  }

  /** The array is written on one line: it has fewer than 25 elements, all scalars or empty, and the line stays within
      the margin. */
  ghost predicate FitsOnLine(v: Value, show: real -> seq<byte>)
    requires v.Arr?
  {
    ArraySize(v.entries) < 25 && AllSimple(v, ArraySize(v.entries)) && |OneLine(v, show)| < 74
  }

  lemma {:induction false} LineItemsStart(v: Value, show: real -> seq<byte>)
    requires v.Arr?
    ensures LineItems(v, 0, show) == []
  {
  }

  lemma {:induction false} LineItemsStep(v: Value, n: nat, show: real -> seq<byte>, text: seq<byte>)
    requires v.Arr?
    ensures text + LineItems(v, n + 1, show) ==
            text + LineItems(v, n, show) + (if n == 0 then [] else [44, SPACE]) + ElementText(v, n, show)
  {
    hide ElementText;
  }

  lemma {:induction false} LineItemsLength(v: Value, n: nat, show: real -> seq<byte>)
    requires v.Arr? && n > 0
    ensures |LineItems(v, n, show)| + (ArraySize(v.entries) - n) * 2 + 4 == LineLength(v, n, show)
    decreases n
  {
    hide ElementText;
    if n > 1 { LineItemsLength(v, n - 1, show); }
  }

  lemma {:induction false} FitsIff(v: Value, show: real -> seq<byte>)
    requires v.Arr? && ArraySize(v.entries) > 0
    ensures FitsOnLine(v, show) <==> !IsMultiline(v, show)
  {
    hide ElementText, AllSimple;
    LineItemsLength(v, ArraySize(v.entries), show);
  }

  lemma {:induction false} SimpleTokens(v: Value, show: real -> seq<byte>)
    requires Simple(v)
    ensures v.Arr? ==> SimpleText(v, show) == [91, 93]
    ensures v.Obj? ==> SimpleText(v, show) == [123, 125]
    ensures !v.Arr? && !v.Obj? ==> SimpleText(v, show) == TokText(Tokens(v, show)[0])
  {
    hide TokText;
    var ts := Tokens(v, show);
    if v.Arr? {
      assert ts == [Punct(91), Punct(93)];
      PairText(Punct(91), Punct(93));
      assert TokText(Punct(91)) == [91] && TokText(Punct(93)) == [93] by { PunctText(); }
    } else if v.Obj? {
      assert ts == [Punct(123), Punct(125)];
      PairText(Punct(123), Punct(125));
      assert TokText(Punct(123)) == [123] && TokText(Punct(125)) == [125] by { PunctText(); }
    } else {
      assert ts[1..] == [];
      OneText(ts[0]);
      assert ts == [ts[0]];
    }
  }

  lemma {:induction false} PunctText()
    ensures forall c: byte :: TokText(Punct(c)) == [c]
  {
  }

  lemma {:induction false} OneText(t: Tok)
    ensures FastText([t], false) == TokText(t)
  {
    hide TokText;
    assert [t][1..] == [];
    var none: seq<byte> := [];
    assert FastText([], false) == none;
    assert TokText(t) + none + none == TokText(t);
  }

  lemma {:induction false} PairText(s: Tok, t: Tok)
    ensures FastText([s, t], false) == TokText(s) + TokText(t)
  {
    hide TokText;
    OneText(t);
    assert [s, t][1..] == [t];
    var none: seq<byte> := [];
    assert TokText(s) + none + FastText([t], false) == TokText(s) + TokText(t);
  }

  /** Behind anything but white space the text goes on on a new line. */
  ghost predicate BrokenLine(a: seq<byte>, b: seq<byte>) {
    a != [] && a[|a| - 1] != SPACE && a[|a| - 1] != NEWLINE ==> |a| < |b| && b[|a|] == NEWLINE
  }

  lemma {:induction false} LineBreakWithin(d0: seq<byte>, d1: seq<byte>, d2: seq<byte>, d3: seq<byte>)
    requires Grown(d0, d1, [Punct(91)]) && BrokenLine(d1, d2) && Grown(d2, d3, [Punct(93)])
    requires |d1| > 0 && d1[|d1| - 1] == 91
    ensures |d0| <= |d3| && NEWLINE in d3[|d0|..]
  {
    hide Spaced;
    assert d3[|d1|] == d3[..|d2|][|d1|] == d2[|d1|] == NEWLINE;
    assert d3[|d0|..][|d1| - |d0|] == NEWLINE;
  }

  lemma {:induction false} Regrouped(a: seq<Tok>, b: seq<Tok>, c: seq<Tok>, d: seq<Tok>)
    ensures a + b + c + d == a + (b + c + d)
  {
  }

  lemma {:induction false} BrokenLineOn(a: seq<byte>, b: seq<byte>, c: seq<byte>, ts: seq<Tok>)
    requires BrokenLine(a, b) && Grown(b, c, ts)
    ensures BrokenLine(a, c)
  {
    if |a| < |b| { assert c[|a|] == c[..|b|][|a|]; }
  }

  class StyledWriter {
    var document: seq<byte>
    var childValues: seq<seq<byte>>
    var indentString: seq<byte>
    var addChildValues: bool
    const show: real -> seq<byte>

    constructor (show: real -> seq<byte>)
      ensures this.show == show
    {
      this.show := show;
      document, childValues, indentString, addChildValues := [], [], [], false;
    }

    method PushValue(text: seq<byte>)
      modifies this`document, this`childValues
      ensures if addChildValues then document == old(document) && childValues == old(childValues) + [text]
              else document == old(document) + text && childValues == old(childValues)
    {
      if addChildValues {
        childValues := childValues + [text];
      } else {
        document := document + text;
      }
    }

    /** White space is written, and none behind a space. */
    method WriteIndent()
      requires Blank(indentString)
      modifies this`document
      ensures |document| >= |old(document)| && document[..|old(document)|] == old(document)
      ensures Blank(document[|old(document)|..])
      ensures BrokenLine(old(document), document)
      ensures Grown(old(document), document, [])
    {
      ghost var before := document;
      GrowNot(document);
      if document != [] {
        var last := document[|document| - 1];
        if last == SPACE { return; }
        if last != NEWLINE {
          BlankIsSpaced([NEWLINE]);
          GrowBy(before, document, [], [NEWLINE], []);
          document := document + [NEWLINE];
        }
      }
      BlankIsSpaced(indentString);
      GrowBy(before, document, [], indentString, []);
      document := document + indentString;
    }

    method WriteWithIndent(text: seq<byte>, ghost ts: seq<Tok>)
      requires Blank(indentString) && Spaced(text, ts)
      modifies this`document
      ensures Grown(old(document), document, ts) && BrokenLine(old(document), document)
      ensures |text| <= |document| && document[|document| - |text|..] == text
    {
      hide Spaced, Grown;
      WriteIndent();
      GrowBy(old(document), document, [], text, ts);
      assert [] + ts == ts;
      document := document + text;
    }

    method Indent()
      requires Blank(indentString)
      modifies this`indentString
      ensures Blank(indentString) && |indentString| == |old(indentString)| + INDENT_SIZE
      ensures indentString[..|old(indentString)|] == old(indentString)
    {
      indentString := indentString + [SPACE, SPACE, SPACE];
    }

    /** The assertion that there is an indentation to take back. */
    method Unindent()
      requires |indentString| >= INDENT_SIZE
      modifies this`indentString
      ensures indentString == old(indentString)[..|old(indentString)| - INDENT_SIZE]
    {
      indentString := indentString[..|indentString| - INDENT_SIZE];
    }

    /** The cases of writeValue that push one text; while the cache is filled, exactly one text is added to it. */
    method WriteSimple(v: Value)
      requires Proper(v) && Simple(v)
      modifies this`document, this`childValues
      ensures addChildValues ==> document == old(document) && childValues == old(childValues) + [SimpleText(v, show)]
      ensures !addChildValues ==> document == old(document) + SimpleText(v, show) && childValues == old(childValues)
    {
      hide FastText, SimpleText;
      SimpleTokens(v, show);
      match v
      case Null => PushValue(NULL_WORD);
      case Bool(b) => PushValue(if b then TRUE_WORD else FALSE_WORD);
      case Int(i) =>
        var s := ValueToString(i);
        PushValue(s);
      case UInt(u) =>
        var s := ValueToString(u);
        PushValue(s);
      case Real(r) => PushValue(show(r));
      case Str(s) =>
        var t := ValueToQuotedString(s);
        PushValue(t);
      case Arr(_) => PushValue([91, 93]);
      case Obj(_) => PushValue([123, 125]);
    }

    /** isMultineArray: the decision, and the cache, which is empty or holds exactly one text for each element. */
    method IsMultilineArray(v: Value) returns (multiline: bool)
      requires Proper(v) && v.Arr? && Blank(indentString) && !addChildValues
      modifies this
      ensures document == old(document) && indentString == old(indentString) && !addChildValues
      ensures multiline <==> IsMultiline(v, show)
      ensures ArraySize(v.entries) > 0 ==> (multiline <==> !FitsOnLine(v, show))
      ensures childValues == [] || |childValues| == ArraySize(v.entries)
      ensures !multiline ==> |childValues| == ArraySize(v.entries)
      ensures forall i :: 0 <= i < |childValues| ==> childValues[i] == ElementText(v, i, show)
      decreases Height(v), 0, 1
    {
      hide Proper, SimpleText, Before, FitsOnLine;
      if ArraySize(v.entries) > 0 { FitsIff(v, show); }
      var size := ArraySize(v.entries);
      multiline := size * 3 >= RIGHT_MARGIN;
      childValues := [];
      var index := 0;
      while index < size && !multiline
        invariant 0 <= index <= size
        invariant multiline <==> size * 3 >= RIGHT_MARGIN || !AllSimple(v, index)
      {
        var child := Get(v.entries, Index(index));
        multiline := (child.Arr? || child.Obj?) && Size(child) > 0;
        index := index + 1;
      }
      if !multiline {
        var lineLength := FillCache(v);
        multiline := lineLength >= RIGHT_MARGIN;
      }
    }

    /** The second half of isMultilineArray: every element is written into the cache, and their lengths are added. */
    method FillCache(v: Value) returns (lineLength: int)
      requires Proper(v) && v.Arr? && Blank(indentString) && !addChildValues && childValues == []
      requires AllSimple(v, ArraySize(v.entries))
      modifies this
      ensures document == old(document) && indentString == old(indentString) && !addChildValues
      ensures lineLength == LineLength(v, ArraySize(v.entries), show) && |childValues| == ArraySize(v.entries)
      ensures forall i :: 0 <= i < |childValues| ==> childValues[i] == ElementText(v, i, show)
      decreases Height(v), 0, 0
    {
      hide Proper, SimpleText, Before;
      var size: int := ArraySize(v.entries);
      addChildValues := true;
      lineLength := 4 + (size - 1) * 2;
      var index := 0;
      while index < size
        invariant 0 <= index <= size && addChildValues
        invariant document == old(document) && indentString == old(indentString)
        invariant |childValues| == index && lineLength == LineLength(v, index, show)
        invariant forall i :: 0 <= i < index ==> childValues[i] == ElementText(v, i, show)
      {
        ElementProper(v, Index(index));
        GetHeight(v, Index(index));
        WriteValue(Get(v.entries, Index(index)));
        lineLength := lineLength + |childValues[index]|;
        index := index + 1;
      }
      addChildValues := false;
    }

    /** writeValue. */
    method WriteValue(v: Value)
      requires Proper(v) && Blank(indentString) && (addChildValues ==> Simple(v))
      modifies this
      ensures indentString == old(indentString) && addChildValues == old(addChildValues)
      ensures addChildValues ==> document == old(document) && childValues == old(childValues) + [SimpleText(v, show)]
      ensures !addChildValues ==> Grown(old(document), document, Tokens(v, show))
      decreases Height(v), 2
    {
      hide Proper, Tokens, SimpleText, Grown;
      if Simple(v) {
        WriteSimple(v);
        if !addChildValues { SimpleGrows(old(document), v, show); }
      } else if v.Arr? {
        WriteArrayValue(v);
      } else {
        WriteMembers(v);
      }
    }

    /** A token with white space around it is appended. */
    method Append(text: seq<byte>, ghost before: seq<byte>, ghost t: Tok, ghost after: seq<byte>)
      requires Blank(before) && Blank(after) && text == before + TokText(t) + after
      modifies this`document
      ensures Grown(old(document), document, [t]) && document == old(document) + text
    {
      hide TokText, Spaced, Grown;
      GrowNot(document);
      TokenWithin(before, t, after);
      GrowBy(document, document, [], text, [t]);
      assert [] + [t] == [t];
      document := document + text;
    }

    /** writeArrayValue on an array that is not empty. */
    method WriteArrayValue(v: Value)
      requires Proper(v) && v.Arr? && Size(v) > 0 && Blank(indentString) && !addChildValues
      modifies this
      ensures indentString == old(indentString) && !addChildValues
      ensures Grown(old(document), document, Tokens(v, show))
      ensures if FitsOnLine(v, show) then document == old(document) + OneLine(v, show)
              else NEWLINE in document[|old(document)|..]
      decreases Height(v), 1
    {
      hide Proper, Tokens, Grown, Spaced, IsMultiline, ElementText, ItemTokens, FitsOnLine, LineItems, BrokenLine;
      FitsIff(v, show);
      var multiline := IsMultilineArray(v);
      ghost var items := ItemTokens(v, 0, show);
      ghost var d0 := document;
      if multiline {
        SpacedToken(Punct(91));
        WriteWithIndent([91], [Punct(91)]);
        Indent();
        ghost var d1 := document;
        assert d1[|d1| - 1] == d1[|d1| - 1..][0] == 91;
        WriteLines(v);
        ghost var d2 := document;
        Unindent();
        SpacedToken(Punct(93));
        WriteWithIndent([93], [Punct(93)]);
        GrowOn(d0, d1, [Punct(91)], d2, items);
        GrowOn(d0, d2, [Punct(91)] + items, document, [Punct(93)]);
        LineBreakWithin(d0, d1, d2, document);
      } else {
        Append([91, SPACE], [], Punct(91), [SPACE]);
        ghost var d1 := document;
        WriteLine(v);
        ghost var d2 := document;
        Append([SPACE, 93], [SPACE], Punct(93), []);
        GrowOn(d0, d1, [Punct(91)], d2, items);
        GrowOn(d0, d2, [Punct(91)] + items, document, [Punct(93)]);
        assert document == d0 + OneLine(v, show);
      }
      ArrayTokens(v, show);
    }

    /** The elements of an array on lines of their own, from the cache if it is filled. */
    method WriteLines(v: Value)
      requires Proper(v) && v.Arr? && Size(v) > 0 && Blank(indentString) && !addChildValues
      requires childValues == [] || |childValues| == ArraySize(v.entries)
      requires forall i :: 0 <= i < |childValues| ==> childValues[i] == ElementText(v, i, show)
      modifies this
      ensures indentString == old(indentString) && !addChildValues
      ensures Grown(old(document), document, ItemTokens(v, 0, show)) && BrokenLine(old(document), document)
      decreases Height(v), 0
    {
      hide Proper, Tokens, Grown, Spaced, ElementText, ItemTokens, BrokenLine;
      var size := ArraySize(v.entries);
      var hasChildValue := childValues != [];
      var index := 0;
      ghost var done: seq<Tok> := [];
      GrowNot(document);
      assert [] + ItemTokens(v, 0, show) == ItemTokens(v, 0, show);
      while true
        invariant 0 <= index < size && indentString == old(indentString) && !addChildValues
        invariant hasChildValue ==> childValues == old(childValues)
        invariant index > 0 ==> BrokenLine(old(document), document)
        invariant index == 0 ==> document == old(document)
        invariant Grown(old(document), document, done) && done + ItemTokens(v, index, show) == ItemTokens(v, 0, show)
        decreases size - index
      {
        ghost var before := document;
        WriteElement(v, index, hasChildValue);
        ghost var element := Tokens(Get(v.entries, Index(index)), show);
        GrowOn(old(document), before, done, document, element);
        if index > 0 { BrokenLineOn(old(document), before, document, element); }
        ItemTokensStep(v, index, show);
        index := index + 1;
        if index == size {
          done := done + element;
          break;
        }
        before := document;
        Append([44], [], COMMA, []);
        GrowOn(old(document), before, done + element, document, [COMMA]);
        BrokenLineOn(old(document), before, document, [COMMA]);
        Regrouped(done, element, [COMMA], ItemTokens(v, index, show));
        done := done + element + [COMMA];
      }
    }

    method WriteElement(v: Value, index: nat, hasChildValue: bool)
      requires Proper(v) && v.Arr? && index < ArraySize(v.entries) && Blank(indentString) && !addChildValues
      requires hasChildValue ==> index < |childValues| && childValues[index] == ElementText(v, index, show)
      modifies this
      ensures indentString == old(indentString) && !addChildValues
      ensures hasChildValue ==> childValues == old(childValues)
      ensures Grown(old(document), document, Tokens(Get(v.entries, Index(index)), show)) && BrokenLine(old(document), document)
      decreases Height(v), 0, 0
    {
      hide Proper, Tokens, Grown, Spaced, FastText, BrokenLine;
      var child := Get(v.entries, Index(index));
      ElementProper(v, Index(index));
      GetHeight(v, Index(index));
      if hasChildValue {
        FastTextIsSpaced(Tokens(child, show), false);
        WriteWithIndent(childValues[index], Tokens(child, show));
      } else {
        WriteIndent();
        ghost var before := document;
        WriteValue(child);
        GrowOn(old(document), before, [], document, Tokens(child, show));
        BrokenLineOn(old(document), before, document, Tokens(child, show));
        assert [] + Tokens(child, show) == Tokens(child, show);
      }
    }

    /** The elements of an array on one line, all from the cache. */
    method WriteLine(v: Value)
      requires v.Arr? && |childValues| == ArraySize(v.entries) > 0
      requires forall i :: 0 <= i < |childValues| ==> childValues[i] == ElementText(v, i, show)
      modifies this`document
      ensures Grown(old(document), document, ItemTokens(v, 0, show))
      ensures document == old(document) + LineItems(v, ArraySize(v.entries), show)
    {
      hide Tokens, Grown, Spaced, ItemTokens, FastText, LineItems;
      LineItemsStart(v, show);
      var size := |childValues|;
      ghost var done: seq<Tok> := [];
      GrowNot(document);
      assert [] + ItemTokens(v, 0, show) == ItemTokens(v, 0, show);
      for index := 0 to size
        invariant Grown(old(document), document, done)
        invariant document == old(document) + LineItems(v, index, show)
        invariant done + PendingItems(v, index, show) == ItemTokens(v, 0, show)
      {
        if index > 0 {
          ghost var before := document;
          Append([44, SPACE], [], COMMA, [SPACE]);
          GrowOn(old(document), before, done, document, [COMMA]);
          done := done + [COMMA];
        }
        ghost var element := Tokens(Get(v.entries, Index(index)), show);
        FastTextIsSpaced(element, false);
        GrowBy(old(document), document, done, childValues[index], element);
        document := document + childValues[index];
        ItemTokensStep(v, index, show);
        LineItemsStep(v, index, show, old(document));
        assert done + ItemTokens(v, index, show) == done + element + PendingItems(v, index + 1, show);
        done := done + element;
      }
      assert done + [] == done;
    }

    method WriteMembers(v: Value)
      requires Proper(v) && v.Obj? && Size(v) > 0 && Blank(indentString) && !addChildValues
      modifies this
      ensures indentString == old(indentString) && !addChildValues
      ensures Grown(old(document), document, Tokens(v, show))
      decreases Height(v), 1
    {
      hide Proper, Tokens, Grown, Spaced, MemberTokens;
      ghost var d0 := document;
      ghost var members := MemberTokens(v, 0, show);
      SpacedToken(Punct(123));
      WriteWithIndent([123], [Punct(123)]);
      Indent();
      ghost var d1 := document;
      WriteMemberLines(v);
      ghost var d2 := document;
      Unindent();
      SpacedToken(Punct(125));
      WriteWithIndent([125], [Punct(125)]);
      GrowOn(d0, d1, [Punct(123)], d2, members);
      GrowOn(d0, d2, [Punct(123)] + members, document, [Punct(125)]);
      ObjectTokens(v, show);
    }

    method WriteMemberLines(v: Value)
      requires Proper(v) && v.Obj? && Size(v) > 0 && Blank(indentString) && !addChildValues
      modifies this
      ensures indentString == old(indentString) && !addChildValues
      ensures Grown(old(document), document, MemberTokens(v, 0, show))
      decreases Height(v), 0
    {
      hide Proper, Tokens, Grown, Spaced, MemberTokens;
      var members := v.entries;
      var k := 0;
      ghost var done: seq<Tok> := [];
      GrowNot(document);
      assert [] + MemberTokens(v, 0, show) == MemberTokens(v, 0, show);
      while true
        invariant 0 <= k < |members| && indentString == old(indentString) && !addChildValues
        invariant Grown(old(document), document, done) && done + MemberTokens(v, k, show) == MemberTokens(v, 0, show)
        decreases |members| - k
      {
        ghost var before := document;
        WriteMember(v, k);
        ghost var member := [Text(NameOf(members[k])), COLON] + Tokens(members[k].value, show);
        GrowOn(old(document), before, done, document, member);
        MemberTokensStep(v, k, show);
        k := k + 1;
        if k == |members| {
          done := done + member;
          break;
        }
        before := document;
        Append([44], [], COMMA, []);
        GrowOn(old(document), before, done + member, document, [COMMA]);
        assert done + member + [COMMA] + MemberTokens(v, k, show) == done + (member + [COMMA] + MemberTokens(v, k, show));
        done := done + member + [COMMA];
      }
    }

    /** A member on its line: the name, a colon and the value. */
    method WriteMember(v: Value, k: nat)
      requires Proper(v) && v.Obj? && k < |v.entries| && Blank(indentString) && !addChildValues
      modifies this
      ensures indentString == old(indentString) && !addChildValues
      ensures Grown(old(document), document,
                    [Text(NameOf(v.entries[k])), COLON] + Tokens(v.entries[k].value, show))
      decreases Height(v), 0, 0
    {
      hide Proper, Tokens, Grown, Spaced, Quoted;
      var name := NameOf(v.entries[k]);
      MemberFound(v, k);
      ElementProper(v, Name(name));
      GetHeight(v, Name(name));
      var child := Get(v.entries, Name(name));
      var quoted := ValueToQuotedString(name);
      SpacedToken(Text(name));
      WriteWithIndent(quoted, [Text(name)]);
      ghost var d1 := document;
      Append([SPACE, 58, SPACE], [SPACE], COLON, [SPACE]);
      GrowOn(old(document), d1, [Text(name)], document, [COLON]);
      ghost var d2 := document;
      WriteValue(child);
      GrowOn(old(document), d2, [Text(name)] + [COLON], document, Tokens(child, show));
      assert [Text(name)] + [COLON] == [Text(name), COLON];
    }

    /** write: the tokens of the value with white space around them; the compact writer writes the same tokens. */
    method Write(root: Value) returns (text: seq<byte>)
      requires Proper(root)
      modifies this
      ensures text == document && Spaced(text, Tokens(root, show))
    {
      hide Proper, Tokens, Spaced;
      document, addChildValues, indentString := [], false, [];
      WriteValue(root);
      GrownFromNothing(document, Tokens(root, show));
      SpacedLineFeed(document, Tokens(root, show));
      document := document + [NEWLINE];
      text := document;
    }
  }

  lemma {:induction false} GrownFromNothing(b: seq<byte>, ts: seq<Tok>)
    requires Grown([], b, ts)
    ensures Spaced(b, ts)
  {
    hide Spaced;
    var none: seq<byte> := [];
    assert b[|none|..] == b;
  }

  lemma {:induction false} SimpleGrows(a: seq<byte>, v: Value, show: real -> seq<byte>)
    ensures Grown(a, a + SimpleText(v, show), Tokens(v, show))
  {
    hide Tokens, FastText, Grown, Spaced;
    var ts := Tokens(v, show);
    GrowNot(a);
    FastTextIsSpaced(ts, false);
    GrowBy(a, a, [], FastText(ts, false), ts);
    assert [] + ts == ts;
  }

  lemma {:induction false} ArrayTokens(v: Value, show: real -> seq<byte>)
    requires v.Arr? && Size(v) > 0
    ensures Tokens(v, show) == [Punct(91)] + ItemTokens(v, 0, show) + [Punct(93)]
  {
  }

  lemma {:induction false} ObjectTokens(v: Value, show: real -> seq<byte>)
    requires v.Obj? && Size(v) > 0
    ensures Tokens(v, show) == [Punct(123)] + MemberTokens(v, 0, show) + [Punct(125)]
  {
  }

  lemma {:induction false} ItemTokensStep(v: Value, i: nat, show: real -> seq<byte>)
    requires v.Arr? && i < ArraySize(v.entries)
    ensures ItemTokens(v, i, show) == Tokens(Get(v.entries, Index(i)), show) +
            (if i + 1 == ArraySize(v.entries) then [] else [COMMA] + ItemTokens(v, i + 1, show))
    ensures i + 1 < ArraySize(v.entries) ==>
      ItemTokens(v, i, show) == Tokens(Get(v.entries, Index(i)), show) + [COMMA] + ItemTokens(v, i + 1, show)
    ensures i + 1 == ArraySize(v.entries) ==> ItemTokens(v, i, show) == Tokens(Get(v.entries, Index(i)), show)
  {
    hide Tokens;
    ElementIsGet(v, i, show);
  }

  lemma {:induction false} MemberTokensStep(v: Value, k: nat, show: real -> seq<byte>)
    requires v.Obj? && k < |v.entries|
    ensures var member := [Text(NameOf(v.entries[k])), COLON] + Tokens(v.entries[k].value, show);
            MemberTokens(v, k, show) ==
              if k + 1 == |v.entries| then member else member + [COMMA] + MemberTokens(v, k + 1, show)
  {
  }
}
