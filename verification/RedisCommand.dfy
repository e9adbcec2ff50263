/** Formatting a command in the Redis serialization protocol, and finding its arguments again. */
module HiredisCommand {
  import opened Bytes
  import opened Resp
  import opened RespStream
  import opened RespRoundTrip

  function Bulks(argv: seq<seq<byte>>): (ws: seq<Wire>)
    ensures |ws| == |argv|
  {
    if argv == [] then [] else [WBulk(argv[0])] + Bulks(argv[1..])
  }

  /** A command is an array of its arguments. */
  function Command(argv: seq<seq<byte>>): Wire { WArray(Bulks(argv)) }

  function BulkBytes(arg: seq<byte>): seq<byte> { Encode(WBulk(arg)) }

  /** The encoding of the arguments that start at number `k`. */
  function ArgBytes(argv: seq<seq<byte>>, k: nat): seq<byte>
    requires k <= |argv|
    decreases |argv| - k
  {
    if k == |argv| then [] else BulkBytes(argv[k]) + ArgBytes(argv, k + 1)
  }

  lemma {:induction false} ArgBytesAreBulks(argv: seq<seq<byte>>, k: nat)
    requires k <= |argv|
    ensures EncodeAll(Bulks(argv[k..])) == ArgBytes(argv, k)
    decreases |argv| - k
  {
    hide Encode;
    if k < |argv| {
      ArgBytesAreBulks(argv, k + 1);
      assert argv[k..][1..] == argv[k + 1..];
      assert Bulks(argv[k..])[1..] == Bulks(argv[k + 1..]);
    }
  }

  lemma {:induction false} CommandBytes(argv: seq<seq<byte>>)
    ensures Encode(Command(argv)) == [42] + Decimal(|argv|) + CRLF + ArgBytes(argv, 0)
  {
    ArgBytesAreBulks(argv, 0);
    assert argv[0..] == argv;
  }

  lemma {:induction false} CommandMeaning(argv: seq<seq<byte>>)
    ensures AllLines(Bulks(argv)) && MaxDepth(Bulks(argv)) == 0
    ensures forall k :: 0 <= k < |argv| ==> Meanings(Bulks(argv))[k] == Bulk(argv[k])
  {
    if argv != [] {
      CommandMeaning(argv[1..]);
      assert Bulks(argv)[1..] == Bulks(argv[1..]);
      assert Lines(WBulk(argv[0])) && Depth(WBulk(argv[0])) == 0;
    }
  }

  /** Main result: a reader between replies that is fed a formatted command hands out the array of exactly its
      arguments, whatever bytes they hold, and stands behind it. */
  lemma {:induction false} CommandRoundTrip(r: Reader, argv: seq<seq<byte>>, suffix: seq<byte>)
    requires Valid(r) && r.error.NoError? && r.stack == [] && r.tree == Unset && Unread(r) == []
    ensures var (r', g) := GetReply(Feed(r, Encode(Command(argv)) + suffix));
            g.Got? && g.reply.Array? && |g.reply.elements| == |argv| &&
            (forall k :: 0 <= k < |argv| ==> g.reply.elements[k] == Bulk(argv[k])) &&
            CoreOf(r') == Live([RootTask], Unset, suffix)
  {
    CommandMeaning(argv);
    ReplyRoundTrip(r, Command(argv), suffix);
  }

  // ---- Formatting ----

  /** intlen. */
  method IntLen(i: int) returns (len: nat)
    ensures len == |SignedDecimal(i)|
  {
    len := 0;
    var rest: nat;
    if i < 0 {
      len := 1;
      rest := -i;
    } else {
      rest := i;
    }
    ghost var sign := len;
    ghost var all := rest;
    len := len + 1;
    rest := rest / 10;
    if all >= 10 { assert |Decimal(all)| == |Decimal(rest)| + 1; }
    while rest != 0
      invariant len + (if rest == 0 then 0 else |Decimal(rest)|) == sign + |Decimal(all)|
      decreases rest
    {
      if rest >= 10 { assert |Decimal(rest)| == |Decimal(rest / 10)| + 1; }
      len := len + 1;
      rest := rest / 10;
    }
  }

  /** bulklen. */
  method BulkLen(n: nat) returns (len: nat)
    ensures forall arg: seq<byte> :: |arg| == n ==> len == |BulkBytes(arg)|
  {
    var digits := IntLen(n);
    PlainNumeral(n);
    len := 1 + digits + 2 + n + 2;
  }

  /** sprintf or memcpy into the command buffer. */
  method Write(cmd: array<byte>, pos: nat, bytes: seq<byte>) returns (next: nat)
    requires pos + |bytes| <= cmd.Length
    modifies cmd
    ensures next == pos + |bytes| && cmd[..next] == old(cmd[..pos]) + bytes
  {
    for i := 0 to |bytes|
      invariant cmd[..pos + i] == old(cmd[..pos]) + bytes[..i]
    {
      cmd[pos + i] := bytes[i];
    }
    next := pos + |bytes|;
  }

  /** The first loop of redisFormatCommandArgv. */
  method CommandLength(argv: seq<seq<byte>>) returns (totlen: nat)
    ensures totlen == |Decimal(|argv|)| + 3 + |ArgBytes(argv, 0)|
  {
    hide Encode, Decimal;
    var digits := IntLen(|argv|);
    PlainNumeral(|argv|);
    totlen := 1 + digits + 2;
    for j := 0 to |argv|
      invariant totlen + |ArgBytes(argv, j)| == |Decimal(|argv|)| + 3 + |ArgBytes(argv, 0)|
    {
      var len := BulkLen(|argv[j]|);
      totlen := totlen + len;
    }
  }

  /** The body of the second loop of redisFormatCommandArgv. */
  method WriteArgument(cmd: array<byte>, pos: nat, arg: seq<byte>) returns (next: nat)
    requires pos + |BulkBytes(arg)| <= cmd.Length
    modifies cmd
    ensures next == pos + |BulkBytes(arg)| && cmd[..next] == old(cmd[..pos]) + BulkBytes(arg)
  {
    hide BulkBytes, Decimal;
    BulkParts(arg);
    next := Write(cmd, pos, [36] + Decimal(|arg|) + CRLF);
    next := Write(cmd, next, arg);
    next := Write(cmd, next, CRLF);
  }

  /** redisFormatCommandArgv: the precomputed length is exactly the number of bytes written. */
  method FormatCommandArgv(argv: seq<seq<byte>>) returns (cmd: array<byte>, totlen: nat)
    ensures fresh(cmd) && cmd.Length == totlen + 1
    ensures cmd[..totlen] == Encode(Command(argv)) && cmd[totlen] == 0
  {
    hide Encode, Decimal, BulkBytes;
    totlen := CommandLength(argv);
    ghost var header := [42] + Decimal(|argv|) + CRLF;
    cmd := new byte[totlen + 1];
    var pos := Write(cmd, 0, [42] + Decimal(|argv|) + CRLF);
    assert cmd[..pos] == header;
    for j := 0 to |argv|
      invariant pos <= totlen < cmd.Length && pos + |ArgBytes(argv, j)| == totlen
      invariant cmd[..pos] + ArgBytes(argv, j) == header + ArgBytes(argv, 0)
    {
      ghost var before := cmd[..pos];
      assert ArgBytes(argv, j) == BulkBytes(argv[j]) + ArgBytes(argv, j + 1);
      assert pos + |BulkBytes(argv[j])| <= totlen;
      pos := WriteArgument(cmd, pos, argv[j]);
      assert cmd[..pos] == before + BulkBytes(argv[j]);
      Regroup(before, BulkBytes(argv[j]), ArgBytes(argv, j + 1));
    }
    assert pos == totlen;
    cmd[pos] := 0;
    CommandBytes(argv);
  }

  lemma {:induction false} Regroup(a: seq<byte>, b: seq<byte>, c: seq<byte>)
    ensures a + b + c == a + (b + c)
  {
  }

  lemma {:induction false} BulkParts(arg: seq<byte>)
    ensures BulkBytes(arg) == [36] + Decimal(|arg|) + CRLF + arg + CRLF
  {
  }

  // ---- Finding the arguments ----

  /** strchr: the first `b` at or behind `p`, unless the terminating zero comes first. */
  function Strchr(s: seq<byte>, p: nat, b: byte): (r: int)
    requires p <= |s|
    ensures r == -1 || p <= r < |s|
    decreases |s| - p
  {
    if p == |s| then -1
    else if s[p] == b then p
    else if s[p] == 0 then -1
    else Strchr(s, p + 1, b)
  }

  /** strtol on a string that starts with digits. */
  function LeadingDigits(s: seq<byte>, v: nat): nat {
    if s == [] || !IsDigit(s[0]) then v else LeadingDigits(s[1..], v * 10 + (s[0] - ZERO))
  }

  datatype Argument = NoArgument | Argument(start: nat, length: nat, next: nat) | AssertionFails

  /** nextArgument, on a string with its terminating zero. */
  function NextArgument(s: seq<byte>, p: nat): Argument
    requires p < |s|
  {
    var q := if s[p] == 36 then p else Strchr(s, p, 36);
    if q < 0 then NoArgument
    else
      var length := LeadingDigits(s[q + 1..], 0);
      var r := Strchr(s, q, CR);
      if r < 0 then AssertionFails else Argument(r + 2, length, r + 2 + length + 2)
  }

  /** The string from `p` reaches `k`: its terminating zero does not come before. */
  ghost predicate Reaches(s: seq<byte>, p: nat, k: nat) {
    p <= k < |s| && forall i :: p <= i < k ==> s[i] != 0
  }

  /** `b` is not in the string from `p`. */
  ghost predicate Absent(s: seq<byte>, p: nat, b: byte) {
    forall k: nat :: Reaches(s, p, k) ==> s[k] != b
  }

  /** The first `b` in the string from `p`. */
  ghost predicate FirstAt(s: seq<byte>, p: nat, b: byte, k: nat) {
    Reaches(s, p, k) && s[k] == b && forall i :: p <= i < k ==> s[i] != b
  }

  lemma {:induction false} StrchrIsFirst(s: seq<byte>, p: nat, b: byte)
    requires p <= |s|
    ensures var r := Strchr(s, p, b); if r < 0 then Absent(s, p, b) else FirstAt(s, p, b, r)
    decreases |s| - p
  {
    if p < |s| && s[p] != b && s[p] != 0 {
      StrchrIsFirst(s, p + 1, b);
      if Strchr(s, p, b) < 0 {
        forall k: nat | Reaches(s, p, k) ensures s[k] != b {
          if k > p { assert Reaches(s, p + 1, k); }
        }
      }
    }
  }

  /** An argument is looked for at the first dollar sign. Without one there is none; with one but no carriage return
      behind it, the assertion fails. */
  lemma {:induction false} WhenArgumentsEnd(s: seq<byte>, p: nat, q: nat)
    requires p < |s|
    ensures NextArgument(s, p) == NoArgument <==> Absent(s, p, 36)
    ensures FirstAt(s, p, 36, q) ==> (NextArgument(s, p) == AssertionFails <==> Absent(s, q, CR))
  {
    hide Strchr, LeadingDigits;
    StrchrIsFirst(s, p, 36);
    if FirstAt(s, p, 36, q) {
      StrchrIsFirst(s, q, CR);
      if s[p] == 36 { assert q == p; }
    } else if s[p] == 36 {
      assert Reaches(s, p, p);
    }
  }

  lemma {:induction false} StrchrSkips(s: seq<byte>, p: nat, n: nat, b: byte)
    requires p + n < |s| && s[p + n] == b
    requires forall i :: p <= i < p + n ==> s[i] != b && s[i] != 0
    ensures Strchr(s, p, b) == p + n
    decreases n
  {
    if n > 0 { StrchrSkips(s, p + 1, n - 1, b); }
  }

  lemma {:induction false} LeadingDecimal(digits: seq<byte>, rest: seq<byte>, v: nat)
    requires forall i :: 0 <= i < |digits| ==> IsDigit(digits[i])
    requires rest != [] ==> !IsDigit(rest[0])
    ensures LeadingDigits(digits + rest, v) == DigitsValue(digits, v)
  {
    if digits == [] {
      assert digits + rest == rest;
    } else {
      assert (digits + rest)[1..] == digits[1..] + rest;
      assert IsDigit(digits[0]);
      LeadingDecimal(digits[1..], rest, v * 10 + (digits[0] - ZERO));
    }
  }

  /** Where the parts of an argument stand. */
  lemma {:induction false} ArgumentParts(prefix: seq<byte>, digits: seq<byte>, arg: seq<byte>, rest: seq<byte>)
    ensures var s := prefix + ([36] + digits + CRLF + arg + CRLF) + rest; var p := |prefix|;
            p + 5 + |digits| + |arg| <= |s| && s[p] == 36 && s[p + 1..] == digits + (CRLF + arg + CRLF + rest) &&
            s[p + 1 + |digits|] == CR && s[p + 3 + |digits|..p + 3 + |digits| + |arg|] == arg
  {
    var s := prefix + ([36] + digits + CRLF + arg + CRLF) + rest;
    var behind := s[|prefix| + 1..];
    assert behind == digits + (CRLF + arg + CRLF + rest);
    assert behind[|digits|] == CR;
    assert behind[|digits| + 2..] == arg + CRLF + rest;
  }

  /** Standing at the dollar sign of an argument, its bytes are found and the next position is right behind it. */
  lemma {:induction false} AtArgument(prefix: seq<byte>, arg: seq<byte>, rest: seq<byte>)
    ensures var s := prefix + BulkBytes(arg) + rest;
            var a := NextArgument(s, |prefix|);
            a.Argument? && a.start + a.length <= |s| && s[a.start..a.start + a.length] == arg &&
            a.next == |prefix| + |BulkBytes(arg)|
  {
    hide Decimal, BulkBytes, Strchr, LeadingDigits;
    var s := prefix + BulkBytes(arg) + rest;
    var digits := Decimal(|arg|);
    BulkParts(arg);
    ArgumentParts(prefix, digits, arg, rest);
    var p := |prefix|;
    LeadingDecimal(digits, CRLF + arg + CRLF + rest, 0);
    DecimalValue(|arg|);
    forall i | p <= i < p + 1 + |digits| ensures s[i] != CR && s[i] != 0 {
      if i > p { assert s[i] == s[p + 1..][i - p - 1] == digits[i - p - 1]; assert IsDigit(digits[i - p - 1]); }
    }
    StrchrSkips(s, p, 1 + |digits|, CR);
  }

  /** From the start of a command the first argument is found behind the header; a command without
      arguments has none. */
  lemma {:induction false} AtCommand(argv: seq<seq<byte>>)
    ensures var s := Encode(Command(argv)) + [0];
            var h := |Decimal(|argv|)| + 3;
            if argv == [] then NextArgument(s, 0) == NoArgument
            else h < |s| && NextArgument(s, 0) == NextArgument(s, h)
  {
    hide Decimal, Encode, Strchr, LeadingDigits, BulkBytes;
    var digits := Decimal(|argv|);
    var header := [42] + digits + CRLF;
    CommandBytes(argv);
    var s := Encode(Command(argv)) + [0];
    assert s == header + (ArgBytes(argv, 0) + [0]);
    forall i | 0 <= i < |header| ensures s[i] != 36 && s[i] != 0 {
      assert s[i] == header[i];
      if 0 < i <= |digits| { assert header[i] == digits[i - 1] && IsDigit(digits[i - 1]); }
    }
    if argv == [] {
      assert s[|header|] == 0;
      StrchrStops(s, 0, |header|, 36);
    } else {
      BulkParts(argv[0]);
      assert s[|header|] == 36;
      StrchrSkips(s, 0, |header|, 36);
    }
  }

  lemma {:induction false} StrchrStops(s: seq<byte>, p: nat, n: nat, b: byte)
    requires p + n < |s| && s[p + n] == 0 && b != 0
    requires forall i :: p <= i < p + n ==> s[i] != b && s[i] != 0
    ensures Strchr(s, p, b) == -1
    decreases n
  {
    if n > 0 { StrchrStops(s, p + 1, n - 1, b); }
  }

  /** All arguments that iterating NextArgument from `p` finds, for at most `fuel` of them. */
  function Arguments(s: seq<byte>, p: nat, fuel: nat): seq<seq<byte>>
    decreases fuel
  {
    if fuel == 0 || p >= |s| then []
    else
      match NextArgument(s, p)
      case Argument(start, length, next) =>
        if start + length <= |s| then [s[start..start + length]] + Arguments(s, next, fuel - 1) else []
      case _ => []
  }

  /** Main result: iterating over a formatted command finds exactly its arguments, in order, and stops at the
      terminating zero, however long the iteration may go on. */
  lemma {:induction false} ArgumentsOfCommand(argv: seq<seq<byte>>, fuel: nat)
    requires fuel > |argv|
    ensures Arguments(Encode(Command(argv)) + [0], 0, fuel) == argv
  {
    hide Decimal, Encode, NextArgument;
    var s := Encode(Command(argv)) + [0];
    var h := |Decimal(|argv|)| + 3;
    CommandBytes(argv);
    AtCommand(argv);
    if argv != [] {
      var header := [42] + Decimal(|argv|) + CRLF;
      assert s == header + ArgBytes(argv, 0) + [0];
      ArgumentsFrom(header, argv, 0, fuel);
      assert Arguments(s, 0, fuel) == Arguments(s, h, fuel);
      assert argv[0..] == argv;
    }
  }

  lemma {:induction false} ArgumentsFrom(prefix: seq<byte>, argv: seq<seq<byte>>, k: nat, fuel: nat)
    requires k <= |argv| && fuel > |argv| - k
    ensures Arguments(prefix + ArgBytes(argv, k) + [0], |prefix|, fuel) == argv[k..]
    decreases |argv| - k
  {
    hide NextArgument, BulkBytes;
    var s := prefix + ArgBytes(argv, k) + [0];
    if k == |argv| {
      assert s == prefix + [0];
      AtEnd(prefix);
    } else {
      var rest := ArgBytes(argv, k + 1) + [0];
      assert s == prefix + BulkBytes(argv[k]) + rest;
      AtArgument(prefix, argv[k], rest);
      var prefix' := prefix + BulkBytes(argv[k]);
      assert s == prefix' + ArgBytes(argv, k + 1) + [0];
      ArgumentsFrom(prefix', argv, k + 1, fuel - 1);
    }
  }

  lemma {:induction false} AtEnd(prefix: seq<byte>)
    ensures NextArgument(prefix + [0], |prefix|) == NoArgument
  {
    StrchrStops(prefix + [0], |prefix|, 0, 36);
  }
}
