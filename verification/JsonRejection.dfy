/** Objects that the reader refuses. */
module JsonRejection {
  import opened Bytes
  import opened JsonValue
  import opened JsonParser
  import opened JsonText
  import opened JsonRoundTrip

  /** The one error is at the token `t`, which spells `text`, and the reader goes on where recovery for a closing brace
      ends. */
  ghost predicate OneErrorAt(env: Env, r: Outcome, value: Value, message: Message, t: Token, text: seq<byte>) {
    t.start <= t.end <= |env.doc| && env.doc[t.start..t.end] == text &&
    r == Outcome(false, value, Recovered(env.doc, t.end, ObjectEnd), [Error(t, message, -1)])
  }

  /** Any token but a colon behind the name of a member is an error, the only one; the members before are kept. */
  lemma {:induction false} MissingColonFails(env: Env, m: seq<Entry>, name: seq<byte>, t: Tok, p: nat, us: seq<Tok>, unnamed: bool)
    returns (found: Token)
    requires p <= |env.doc| && Spaced(env.doc[p..], [Text(name)] + ([t] + us))
    requires GoodTok(t) && MayFollow(t, us) && t != COLON
    ensures found.kind == TokKind(t)
    ensures OneErrorAt(env, ReadMembers(env, p, m, unnamed), Obj(m), MissingColon, found, TokText(t))
  {
    hide Spaced, DecodeString, ReadToken, TokText, ReadMember, GoodTok, SkipComments, Recovered;
    GoodText(name);
    var nameAt := TakeToken(env.doc, p, Text(name), [t] + us);
    var afterName := nameAt + |TokText(Text(name))|;
    TextIsNoComment(env, p, nameAt, afterName);
    var at := TakeToken(env.doc, afterName, t, us);
    PunctGood();
    KindTells(t, COLON);
    found := ReadToken(env.doc, afterName);
    NoColonFails(env, afterName, m, name);
  }

  lemma {:induction false} NoColonFails(env: Env, p: nat, m: seq<Entry>, name: seq<byte>)
    requires p <= |env.doc| && ReadToken(env.doc, p).kind != MemberSeparator
    ensures var t := ReadToken(env.doc, p);
            OneErrorAt(env, ReadMember(env, p, m, name), Obj(m), MissingColon, t, env.doc[t.start..t.end])
  {
    hide ReadToken, ReadValue, ReadMemberEnd, Recovered;
  }

  lemma {:induction false} TextIsNoComment(env: Env, p: nat, start: nat, end: nat)
    requires p <= |env.doc| && end <= |env.doc| && ReadToken(env.doc, p) == Token(StringToken, start, end)
    ensures SkipComments(env.doc, ReadToken(env.doc, p)) == Token(StringToken, start, end)
  {
  }

  /** The kind of a punctuation belongs to no other token. */
  lemma {:induction false} KindTells(t: Tok, punct: Tok)
    requires GoodTok(t) && punct.Punct? && GoodTok(punct)
    ensures TokKind(t) == TokKind(punct) <==> t == punct
    ensures TokKind(t) != CommentToken && TokKind(t) != EndOfStream
  {
  }

  /** Any token but a comma and a closing brace behind the value of a member is an error, the only one; the member is
      kept. */
  lemma {:induction false} MissingCommaFails(env: Env, m: seq<Entry>, name: seq<byte>, v: Value, show: real -> seq<byte>, t: Tok,
                                             p: nat, us: seq<Tok>, unnamed: bool)
    returns (found: Token)
    requires Proper(v) && Readable(v) && GoodTok(t) && !t.Numeral? && t != COMMA && t != Punct(125)
    requires p <= |env.doc| && Spaced(env.doc[p..], [Text(name), COLON] + (Tokens(v, show) + ([t] + us)))
    ensures found.kind == TokKind(t)
    ensures OneErrorAt(env, ReadMembers(env, p, m, unnamed), Obj(Assign(m, Name(CStr(name)), Normal(v))),
                       MissingCommaOrBrace, found, TokText(t))
  {
    hide ReadValue, Spaced, ReadToken, Tokens, Normal, Assign, Get, Recovered, ReadMember, ReadMembers, SkipComments, GoodTok;
    var afterName, colonEnd := NameReads(env, m, name, p, Tokens(v, show) + ([t] + us), unnamed);
    var q := ReadsValue(env, v, show, colonEnd, [t] + us, Get(m, Name(CStr(name))));
    MemberReads(env, m, name, afterName, colonEnd, Normal(v), q);
    var at := TakeToken(env.doc, q, t, us);
    found := ReadToken(env.doc, q);
    KindTells(t, COMMA);
    PunctGood();
    KindTells(t, Punct(125));
  }

  lemma {:induction false} PunctGood()
    ensures GoodTok(COMMA) && GoodTok(COLON) && GoodTok(Punct(125))
  {
  }

  /** The same at the end of the text, in place of the token. */
  lemma {:induction false} UnclosedObjectFails(env: Env, m: seq<Entry>, name: seq<byte>, v: Value, show: real -> seq<byte>,
                                               p: nat, unnamed: bool)
    requires Proper(v) && Readable(v)
    requires p <= |env.doc| && Spaced(env.doc[p..], [Text(name), COLON] + Tokens(v, show))
    ensures OneErrorAt(env, ReadMembers(env, p, m, unnamed), Obj(Assign(m, Name(CStr(name)), Normal(v))),
                       MissingCommaOrBrace, Token(EndOfStream, |env.doc|, |env.doc|), [])
  {
    hide ReadValue, Spaced, ReadToken, Tokens, Normal, Assign, Get, Recovered, ReadMember, ReadMembers, SkipComments;
    assert Tokens(v, show) + [] == Tokens(v, show);
    var afterName, colonEnd := NameReads(env, m, name, p, Tokens(v, show), unnamed);
    var q := ReadsValue(env, v, show, colonEnd, [], Get(m, Name(CStr(name))));
    MemberReads(env, m, name, afterName, colonEnd, Normal(v), q);
    SpacedEnd(env.doc, q);
  }

  // ---- Recovery ----

  /** The tokens `ts` follow one another from `p` on, and the last one ends at `q`. */
  ghost predicate TokenRun(d: seq<byte>, p: nat, ts: seq<Token>, q: nat)
    requires p <= |d|
    decreases |ts|
  {
    if ts == [] then p == q
    else ts[0] == ReadToken(d, p) && TokenRun(d, ts[0].end, ts[1..], q)
  }

  /** Recovery goes on to the end of the first token of the kind looked for, or of the end of the stream. */
  lemma {:induction false} RecoveredIsFirst(d: seq<byte>, p: nat, kind: TokenType) returns (ts: seq<Token>)
    requires p <= |d|
    ensures ts != [] && TokenRun(d, p, ts, Recovered(d, p, kind))
    ensures ts[|ts| - 1].kind == kind || ts[|ts| - 1].kind == EndOfStream
    ensures forall i :: 0 <= i < |ts| - 1 ==> ts[i].kind != kind && ts[i].kind != EndOfStream
    decreases |d| - p
  {
    hide ReadToken;
    var t := ReadToken(d, p);
    if t.kind == kind || t.kind == EndOfStream {
      ts := [t];
      assert ts[1..] == [];
    } else {
      ts := RecoveredIsFirst(d, t.end, kind);
      ts := [t] + ts;
    }
  }
}
