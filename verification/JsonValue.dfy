/** JSON values: a value is a scalar, or an ordered map from keys to values that serves as an array or an object. */
module JsonValue {
  import opened Bytes

  const MIN_INT := -0x8000_0000
  const MAX_INT := 0x7fff_ffff
  const MAX_UINT := 0xffff_ffff

  /** CZString: an array index or a member name. */
  datatype Key = Index(index: nat) | Name(name: seq<byte>)

  datatype Entry = Entry(key: Key, value: Value)

  /** The map of an array or object is its list of entries in key order. */
  datatype Value =
    | Null | Bool(b: bool) | Int(i: int) | UInt(u: int) | Real(r: real) | Str(text: seq<byte>)
    | Arr(entries: seq<Entry>) | Obj(entries: seq<Entry>)

  /** strcmp(a, b) < 0. */
  predicate BytesBefore(a: seq<byte>, b: seq<byte>) {
    if b == [] then false
    else if a == [] then true
    else if a[0] != b[0] then a[0] < b[0]
    else BytesBefore(a[1..], b[1..])
  }

  predicate Before(a: Key, b: Key) {
    match (a, b)
    case (Name(s), Name(t)) => BytesBefore(s, t)
    case (Index(i), Index(j)) => i < j
    case (Index(_), Name(_)) => true
    case (Name(_), Index(_)) => false
  }

  /** At `k` the texts first differ: there the first one ends, or has the smaller byte. */
  ghost predicate FirstDifference(a: seq<byte>, b: seq<byte>, k: nat) {
    k <= |a| && k < |b| && a[..k] == b[..k] && (k < |a| ==> a[k] < b[k])
  }

  /** The order is that of a dictionary. */
  lemma {:induction false} BytesBeforeIff(a: seq<byte>, b: seq<byte>)
    ensures BytesBefore(a, b) <==> exists k :: FirstDifference(a, b, k)
  {
    if BytesBefore(a, b) {
      var k := DifferenceAt(a, b);
    }
    if k: nat :| FirstDifference(a, b, k) { DifferenceOrders(a, b, k); }
  }

  lemma {:induction false} DifferenceAt(a: seq<byte>, b: seq<byte>) returns (k: nat)
    requires BytesBefore(a, b)
    ensures FirstDifference(a, b, k)
  {
    if a == [] || a[0] != b[0] {
      k := 0;
    } else {
      k := DifferenceAt(a[1..], b[1..]);
      assert a[..k + 1] == [a[0]] + a[1..][..k] && b[..k + 1] == [b[0]] + b[1..][..k];
      k := k + 1;
    }
  }

  lemma {:induction false} DifferenceOrders(a: seq<byte>, b: seq<byte>, k: nat)
    requires FirstDifference(a, b, k)
    ensures BytesBefore(a, b)
    decreases k
  {
    if k > 0 {
      assert a[0] == a[..k][0] == b[..k][0] == b[0];
      assert a[1..][..k - 1] == a[..k][1..] && b[1..][..k - 1] == b[..k][1..];
      DifferenceOrders(a[1..], b[1..], k - 1);
    }
  }

  lemma {:induction false} BytesOrder(a: seq<byte>, b: seq<byte>)
    ensures BytesBefore(a, b) || BytesBefore(b, a) || a == b
    ensures !(BytesBefore(a, b) && BytesBefore(b, a)) && !BytesBefore(a, a)
  {
    if a != [] { BytesOrder(a[1..], if b == [] then [] else b[1..]); }
    if a != [] && b != [] && a[0] == b[0] && a[1..] == b[1..] { assert a == [a[0]] + a[1..] == b; }
  }

  lemma {:induction false} BytesTransitive(a: seq<byte>, b: seq<byte>, c: seq<byte>)
    requires BytesBefore(a, b) && BytesBefore(b, c)
    ensures BytesBefore(a, c)
  {
    if a != [] && a[0] == b[0] == c[0] { BytesTransitive(a[1..], b[1..], c[1..]); }
  }

  lemma {:induction false} Order(a: Key, b: Key)
    ensures Before(a, b) || Before(b, a) || a == b
    ensures !(Before(a, b) && Before(b, a)) && !Before(a, a)
  {
    if a.Name? && b.Name? { BytesOrder(a.name, b.name); }
    if a.Name? { BytesOrder(a.name, a.name); }
  }

  lemma {:induction false} Transitive(a: Key, b: Key, c: Key)
    requires Before(a, b) && Before(b, c)
    ensures Before(a, c)
  {
    if a.Name? && b.Name? && c.Name? { BytesTransitive(a.name, b.name, c.name); }
  }

  // ---- The ordered map ----

  ghost predicate Sorted(m: seq<Entry>) {
    forall i, j :: 0 <= i < j < |m| ==> Before(m[i].key, m[j].key)
  }

  /** lower_bound: the number of entries in front of the first whose key is not before `key`. */
  function LowerBound(m: seq<Entry>, key: Key): (k: nat)
    ensures k <= |m| && (k < |m| ==> !Before(m[k].key, key))
    ensures forall i :: 0 <= i < k ==> Before(m[i].key, key)
  {
    if m == [] || !Before(m[0].key, key) then 0 else 1 + LowerBound(m[1..], key)
  }

  predicate Has(m: seq<Entry>, key: Key) {
    var k := LowerBound(m, key);
    k < |m| && m[k].key == key
  }

  /** The const operator []: what the key stands for, null when it is absent. */
  function Get(m: seq<Entry>, key: Key): Value {
    if Has(m, key) then m[LowerBound(m, key)].value else Null
  }

  /** The entries after the value found or inserted by operator [] is assigned to. */
  function Assign(m: seq<Entry>, key: Key, value: Value): seq<Entry> {
    var k := LowerBound(m, key);
    if Has(m, key) then m[k := Entry(key, value)] else m[..k] + [Entry(key, value)] + m[k..]
  }

  /** resolveReference: an absent key is inserted with a null. */
  function Resolve(m: seq<Entry>, key: Key): seq<Entry> {
    if Has(m, key) then m else Assign(m, key, Null)
  }

  /** In a sorted map an entry is found at its place, and only there. */
  lemma {:induction false} FoundAt(m: seq<Entry>, key: Key, k: nat)
    requires Sorted(m) && k < |m| && m[k].key == key
    ensures LowerBound(m, key) == k && Has(m, key) && Get(m, key) == m[k].value
  {
    hide Before;
    Order(key, key);
    var b := LowerBound(m, key);
    if b < k { assert false; }
  }

  lemma {:induction false} AssignKeepsOrder(m: seq<Entry>, key: Key, value: Value)
    requires Sorted(m)
    ensures Sorted(Assign(m, key, value))
  {
    var b := LowerBound(m, key);
    var m' := Assign(m, key, value);
    if !Has(m, key) {
      if b < |m| { Order(m[b].key, key); }
      forall i, j | 0 <= i < j < |m'| ensures Before(m'[i].key, m'[j].key) {
        if i == b && j > b + 1 { Transitive(key, m[b].key, m[j - 1].key); }
      }
    }
  }

  /** Assigning makes the key stand for the value and leaves every other key alone. */
  lemma {:induction false} GetAssign(m: seq<Entry>, key: Key, value: Value, other: Key)
    requires Sorted(m)
    ensures Has(Assign(m, key, value), key) && Get(Assign(m, key, value), key) == value
    ensures other != key ==>
      Has(Assign(m, key, value), other) == Has(m, other) && Get(Assign(m, key, value), other) == Get(m, other)
  {
    hide Before, LowerBound, Get;
    var b := LowerBound(m, key);
    var m' := Assign(m, key, value);
    AssignKeepsOrder(m, key, value);
    FoundAt(m', key, b);
    if other != key {
      GetOther(m, m', b, if Has(m, key) then 0 else 1, other);
    }
  }

  lemma {:induction false} GetOther(m: seq<Entry>, m': seq<Entry>, b: nat, shift: nat, other: Key)
    requires Sorted(m) && Sorted(m') && shift <= 1 && b <= |m| && |m'| == |m| + shift && b < |m'|
    requires m'[b].key != other && (shift == 0 ==> m[b].key != other)
    requires forall i :: 0 <= i < b ==> m'[i] == m[i]
    requires forall i :: b < i < |m'| ==> m'[i] == m[i - shift]
    ensures Has(m', other) == Has(m, other) && Get(m', other) == Get(m, other)
  {
    hide Before, LowerBound;
    if Has(m, other) {
      var k := LowerBound(m, other);
      if k < b { FoundAt(m', other, k); } else { assert m'[k + shift] == m[k]; FoundAt(m', other, k + shift); }
    } else if Has(m', other) {
      var k := LowerBound(m', other);
      FoundAt(m, other, if k < b then k else k - shift);
    }
  }

  /** A later assignment to the inserted value is an assignment to the key. */
  lemma {:induction false} AssignResolved(m: seq<Entry>, key: Key, value: Value)
    requires Sorted(m)
    ensures Assign(Resolve(m, key), key, value) == Assign(m, key, value)
    ensures Get(Resolve(m, key), key) == Get(m, key)
  {
    hide Before, LowerBound;
    if !Has(m, key) {
      GetAssign(m, key, Null, key);
      AssignKeepsOrder(m, key, Null);
      FoundAt(Assign(m, key, Null), key, LowerBound(m, key));
    }
  }

  /** A key behind all others is appended. */
  lemma {:induction false} AssignAtEnd(m: seq<Entry>, key: Key, value: Value)
    requires forall i :: 0 <= i < |m| ==> Before(m[i].key, key)
    ensures !Has(m, key) && Assign(m, key, value) == m + [Entry(key, value)]
  {
    var b := LowerBound(m, key);
    if b < |m| { assert false; }
  }

  // ---- Values ----

  predicate NulFree(s: seq<byte>) { 0 !in s }

  /** The text that a char pointer to the bytes stands for: everything in front of the first zero. */
  function CStr(s: seq<byte>): (c: seq<byte>)
    ensures NulFree(c) && c <= s && (|c| < |s| ==> s[|c|] == 0) && (NulFree(s) ==> c == s)
  {
    if s == [] || s[0] == 0 then [] else [s[0]] + CStr(s[1..])
  }

  /** What every value in memory satisfies: machine integers, strings that end at their first zero, and maps in
      order whose keys are all of one kind. */
  ghost predicate Proper(v: Value) {
    match v
    case Int(i) => MIN_INT <= i <= MAX_INT
    case UInt(u) => 0 <= u <= MAX_UINT
    case Str(s) => NulFree(s)
    case Arr(m) => Sorted(m) && forall k :: 0 <= k < |m| ==> m[k].key.Index? && Proper(m[k].value)
    case Obj(m) => Sorted(m) && forall k :: 0 <= k < |m| ==> m[k].key.Name? && NulFree(m[k].key.name) && Proper(m[k].value)
    case _ => true
  }

  /** The highest index plus one. */
  function ArraySize(m: seq<Entry>): nat {
    if m != [] && m[|m| - 1].key.Index? then m[|m| - 1].key.index + 1 else 0
  }

  function Size(v: Value): nat {
    match v
    case Arr(m) => ArraySize(m)
    case Obj(m) => |m|
    case _ => 0
  }

  /** How deeply arrays and objects are nested. */
  function Height(v: Value): nat
    decreases v, 1
  {
    if v.Arr? || v.Obj? then 1 + EntriesHeight(v, |v.entries|) else 0
  }

  function EntriesHeight(v: Value, n: nat): nat
    requires (v.Arr? || v.Obj?) && n <= |v.entries|
    decreases v, 0, n
  {
    if n == 0 then 0
    else
      var h, others := Height(v.entries[n - 1].value), EntriesHeight(v, n - 1);
      if h > others then h else others
  }

  lemma {:induction false} EntryHeight(v: Value, n: nat, k: nat)
    requires (v.Arr? || v.Obj?) && k < n <= |v.entries|
    ensures Height(v.entries[k].value) <= EntriesHeight(v, n)
  {
    if k < n - 1 { EntryHeight(v, n - 1, k); }
  }

  /** What a key stands for is nested less deeply. */
  lemma {:induction false} GetHeight(v: Value, key: Key)
    requires v.Arr? || v.Obj?
    ensures Height(Get(v.entries, key)) < Height(v)
  {
    if Has(v.entries, key) { EntryHeight(v, |v.entries|, LowerBound(v.entries, key)); }
  }

  // ---- Resizing an array ----

  function Erase(m: seq<Entry>, key: Key): seq<Entry> {
    var k := LowerBound(m, key);
    if Has(m, key) then m[..k] + m[k + 1..] else m
  }

  function EraseFrom(m: seq<Entry>, index: nat, oldSize: nat): seq<Entry>
    decreases oldSize - index
  {
    if index >= oldSize then m else EraseFrom(Erase(m, Index(index)), index + 1, oldSize)
  }

  /** resize, up to its closing assertion. */
  function Resize(m: seq<Entry>, newSize: nat): seq<Entry> {
    if newSize == 0 then []
    else if newSize > ArraySize(m) then Resolve(m, Index(newSize - 1))
    else EraseFrom(m, newSize, ArraySize(m))
  }

  ghost predicate ArrayMap(m: seq<Entry>) { Sorted(m) && forall k :: 0 <= k < |m| ==> m[k].key.Index? }

  lemma {:induction false} EraseKeeps(m: seq<Entry>, key: Key)
    requires ArrayMap(m)
    ensures ArrayMap(Erase(m, key)) && !Has(Erase(m, key), key)
    ensures forall other :: other != key ==> Has(Erase(m, key), other) == Has(m, other)
  {
    hide Before, LowerBound;
    var m' := Erase(m, key);
    var b := LowerBound(m, key);
    assert Sorted(m');
    forall other | other != key ensures Has(m', other) == Has(m, other) {
      if Has(m, other) {
        var k := LowerBound(m, other);
        FoundAt(m', other, if Has(m, key) && k > b then k - 1 else k);
      } else if Has(m', other) {
        var k := LowerBound(m', other);
        FoundAt(m, other, if Has(m, key) && k >= b then k + 1 else k);
      }
    }
    if Has(m, key) {
      Order(key, key);
      forall k | 0 <= k < |m'| ensures m'[k].key != key {
        assert m'[k] == m[if k >= b then k + 1 else k];
      }
    }
  }

  lemma {:induction false} EraseFromKeeps(m: seq<Entry>, index: nat, oldSize: nat)
    requires ArrayMap(m)
    ensures ArrayMap(EraseFrom(m, index, oldSize))
    ensures forall i: nat :: Has(EraseFrom(m, index, oldSize), Index(i)) <==> Has(m, Index(i)) && !(index <= i < oldSize)
    decreases oldSize - index
  {
    hide Erase, Has, Before;
    if index < oldSize {
      EraseKeeps(m, Index(index));
      EraseFromKeeps(Erase(m, Index(index)), index + 1, oldSize);
    }
  }

  lemma {:induction false} SizeIsHighest(m: seq<Entry>)
    requires ArrayMap(m)
    ensures ArraySize(m) > 0 ==> Has(m, Index(ArraySize(m) - 1))
    ensures forall i: nat :: Has(m, Index(i)) ==> i < ArraySize(m)
  {
    if m != [] { FoundAt(m, m[|m| - 1].key, |m| - 1); }
    forall i: nat | Has(m, Index(i)) ensures i < ArraySize(m) {
      var k := LowerBound(m, Index(i));
      if k < |m| - 1 { assert Before(m[k].key, m[|m| - 1].key); }
    }
  }

  /** The size asked for is reached, as the closing assertion of resize demands, exactly when the array grows, or
      keeps its size, or becomes empty, or is cut right behind an element that is present: cutting behind a hole
      trips the assertion. */
  lemma {:induction false} ResizeReachesSize(m: seq<Entry>, newSize: nat)
    requires ArrayMap(m)
    ensures ArraySize(Resize(m, newSize)) == newSize <==>
      newSize == 0 || newSize >= ArraySize(m) || Has(m, Index(newSize - 1))
  {
    SizeIsHighest(m);
    if newSize > ArraySize(m) {
      var last := Index(newSize - 1);
      forall i | 0 <= i < |m| ensures Before(m[i].key, last) {
        FoundAt(m, m[i].key, i);
        assert Has(m, Index(m[i].key.index));
      }
      AssignAtEnd(m, last, Null);
    } else if newSize > 0 {
      EraseFromKeeps(m, newSize, ArraySize(m));
      SizeIsHighest(Resize(m, newSize));
    }
  }
}
