/** Texts outside RFC 8259 that the reader accepts, and what it makes of them. */
module JsonLeniency {
  import opened Bytes
  import opened JsonValue
  import opened JsonParser
  import opened JsonText
  import opened JsonRoundTrip

  /** The separators of an array are not checked: with any punctuation but a closing bracket between the elements, the
      same array is read as with commas. */
  lemma {:induction false} AnySeparatorPasses(env: Env, strictRoot: bool, root: Value, v: Value, show: real -> seq<byte>,
                                              sep: nat -> Tok)
    requires Proper(v) && Readable(v) && v.Arr? && ArraySize(v.entries) > 0 && Separators(sep)
    requires Spaced(env.doc, [Punct(91)] + (SeparatedTokens(v, 0, show, sep) + [Punct(93)]))
    ensures Parse(env, strictRoot, root) == Outcome(true, Normal(v), |env.doc|, [])
  {
    hide ReadValue, ReadArray, SeparatedTokens, Spaced, ReadToken, Separators;
    assert env.doc[0..] == env.doc;
    var q := ArrayOpens(env, 0, SeparatedTokens(v, 0, show, sep) + [Punct(93)], root);
    assert [Punct(93)] + [] == [Punct(93)];
    var next := ReadsSeparated(env, v, show, sep, q, []);
    SpacedEnd(env.doc, next);
  }

  /** A comma in front of the closing brace passes if and only if the name of the member before it is empty, whatever
      members come before that one; otherwise it is the one error. The member is assigned either way. */
  lemma {:induction false} TrailingCommaPasses(env: Env, m: seq<Entry>, name: seq<byte>, v: Value, show: real -> seq<byte>,
                                               p: nat, us: seq<Tok>, unnamed: bool)
    returns (next: nat)
    requires Proper(v) && Readable(v)
    requires p <= |env.doc|
    requires Spaced(env.doc[p..], [Text(name), COLON] + (Tokens(v, show) + ([COMMA] + ([Punct(125)] + us))))
    ensures next <= |env.doc| && Spaced(env.doc[next..], us)
    ensures var r := ReadMembers(env, p, m, unnamed);
            r.value == Obj(Assign(m, Name(CStr(name)), Normal(v))) &&
            (r.ok <==> name == []) && (r.ok ==> r.next == next) &&
            (!r.ok ==> |r.errors| == 1 && r.errors[0].message == MissingBraceOrName)
  {
    hide ReadValue, Spaced, ReadToken, Tokens, Normal, Assign, Get, Recovered, ReadMembers, ReadMember, ReadMemberEnd, SkipComments;
    var closing := [Punct(125)] + us;
    var afterName, colonEnd := NameReads(env, m, name, p, Tokens(v, show) + ([COMMA] + closing), unnamed);
    var q := ReadsValue(env, v, show, colonEnd, [COMMA] + closing, Get(m, Name(CStr(name))));
    MemberReads(env, m, name, afterName, colonEnd, Normal(v), q);
    var m' := Assign(m, Name(CStr(name)), Normal(v));
    var r := MemberEnds(env, m', q, COMMA, closing, name == []);
    next := BraceReads(env, m', r, us, name == []);
  }

  /** A minus sign without digits is the number zero. */
  lemma {:induction false} LoneMinusIsZero(env: Env, p: nat, us: seq<Tok>, old_: Value) returns (next: nat)
    requires EndsNumeral(us) && p <= |env.doc| && Spaced(env.doc[p..], [Numeral([MINUS])] + us)
    ensures ReadValue(env, p, old_) == Outcome(true, Int(0), next, [])
    ensures next <= |env.doc| && Spaced(env.doc[next..], us)
  {
    hide ReadToken, Spaced, DecodeString, Quoted, SkipComments, ReadItems, ReadMembers;
    var start := TakeToken(env.doc, p, Numeral([MINUS]), us);
    next := start + 1;
    assert ValueToken(env, p) == Token(NumberToken, start, next);
  }

  // ---- Comments ----

  /** From slash and star to the first star and slash behind them. */
  ghost predicate BlockComment(c: seq<byte>) {
    |c| >= 4 && c[0] == 47 && c[1] == 42 && c[|c| - 2] == 42 && c[|c| - 1] == 47 &&
    forall i :: 2 <= i < |c| - 2 ==> !(c[i] == 42 && c[i + 1] == 47)
  }

  /** From two slashes to the first line end behind them. */
  ghost predicate LineComment(c: seq<byte>) {
    |c| >= 3 && c[0] == 47 && c[1] == 47 && LineEnd(c[|c| - 1]) && forall i :: 2 <= i < |c| - 1 ==> !LineEnd(c[i])
  }

  ghost predicate LineEnd(c: byte) { c == 10 || c == 13 }

  lemma {:induction false} BlockSkipped(d: seq<byte>, p: nat, end: nat)
    requires p + 2 <= end <= |d| && d[end - 2] == 42 && d[end - 1] == 47
    requires forall i :: p <= i < end - 2 ==> !(d[i] == 42 && d[i + 1] == 47)
    ensures SkipBlockComment(d, p) == Scan(end, true)
    decreases end - p
  {
    if p < end - 2 { BlockSkipped(d, p + 1, end); }
  }

  lemma {:induction false} LineSkipped(d: seq<byte>, p: nat, end: nat)
    requires p < end <= |d| && LineEnd(d[end - 1]) && forall i :: p <= i < end - 1 ==> !LineEnd(d[i])
    ensures SkipLineComment(d, p) == end
    decreases end - p
  {
    if p < end - 1 { LineSkipped(d, p + 1, end); }
  }

  lemma {:induction false} CommentIsToken(d: seq<byte>, p: nat, c: seq<byte>)
    requires (BlockComment(c) || LineComment(c)) && p + |c| <= |d| && d[p..p + |c|] == c
    ensures TokenAt(d, p) == Token(CommentToken, p, p + |c|) && d[p] == 47
  {
    var end := p + |c|;
    assert forall i :: 0 <= i < |c| ==> d[p + i] == d[p..end][i] == c[i];
    if BlockComment(c) {
      forall i | p + 2 <= i < end - 2 ensures !(d[i] == 42 && d[i + 1] == 47) {
        assert d[i] == d[p + (i - p)] && d[i + 1] == d[p + (i + 1 - p)];
      }
      BlockSkipped(d, p + 2, end);
    } else {
      forall i | p + 2 <= i < end - 1 ensures !LineEnd(d[i]) { assert d[i] == d[p + (i - p)]; }
      LineSkipped(d, p + 2, end);
    }
  }

  /** A comment is one token, up to its end. In front of a value it is passed over if and only if comments are allowed;
      otherwise it is the one error. In front of a name it is always passed over. Behind a value it is passed over too,
      and then the separator is not checked. */
  lemma {:induction false} CommentPasses(env: Env, p: nat, start: nat, c: seq<byte>, old_: Value, m: seq<Entry>, unnamed: bool)
    requires (BlockComment(c) || LineComment(c)) && p <= start && start + |c| <= |env.doc|
    requires Blank(env.doc[p..start]) && env.doc[start..start + |c|] == c
    ensures ReadToken(env.doc, p) == Token(CommentToken, start, start + |c|)
    ensures var r := ReadValue(env, p, old_);
            if env.allowComments then r == ReadValue(env, start + |c|, old_)
            else !r.ok && r.value == old_ && |r.errors| == 1 && r.errors[0].message == ValueExpected
    ensures ReadMembers(env, p, m, unnamed) == ReadMembers(env, start + |c|, m, unnamed)
    ensures var t := SkipComments(env.doc, ReadToken(env.doc, start + |c|));
            ReadMemberEnd(env, p, m, unnamed) ==
            if t.kind == ObjectEnd then Outcome(true, Obj(m), t.end, []) else ReadMembers(env, t.end, m, unnamed)
  {
    hide ReadToken, SkipComments, DecodeString, ReadMember, ReadScalar, ReadArray, Recovered;
    CommentRead(env.doc, p, start, c);
    if !env.allowComments { NoScalar(env, ReadToken(env.doc, p), old_); }
  }

  lemma {:induction false} CommentRead(d: seq<byte>, p: nat, start: nat, c: seq<byte>)
    requires (BlockComment(c) || LineComment(c)) && p <= start && start + |c| <= |d|
    requires Blank(d[p..start]) && d[start..start + |c|] == c
    ensures ReadToken(d, p) == Token(CommentToken, start, start + |c|)
    ensures SkipComments(d, ReadToken(d, p)) == SkipComments(d, ReadToken(d, start + |c|))
  {
    hide TokenAt, BlockComment, LineComment, Blank, SkipSpaces;
    CommentIsToken(d, start, c);
    assert !IsSpace(d[start]);
    SkipBlank(d, p, start - p);
  }

  lemma {:induction false} NoScalar(env: Env, t: Token, old_: Value)
    requires t.start <= t.end <= |env.doc| && t.kind == CommentToken
    ensures ReadScalar(env, t, old_) == Failed(old_, t.end, t, ValueExpected)
  {
  }
}
