/** Go strings as byte sequences, and the handful of `strings` package
    operations the handlers use: TrimSpace, TrimPrefix, HasPrefix, ToLower,
    Contains, Split and Join. Go's `len` counts bytes, so every length bound
    of the service is a bound on `|s|` here. */
module Bytes {

  newtype byte = b: int | 0 <= b < 256

  type Bytes = seq<byte>

  const QUOTE: byte := 34
  const PLUS: byte := 43
  const DASH: byte := 45
  const SLASH: byte := 47
  const ZERO: byte := 48
  const NINE: byte := 57
  const COLON: byte := 58
  const AT: byte := 64

  /** The bytes of an ASCII/Latin-1 string literal. */
  function Lit(s: string): (r: Bytes)
    requires forall i :: 0 <= i < |s| ==> s[i] as int < 256
    ensures |r| == |s|
    ensures forall i :: 0 <= i < |s| ==> r[i] as int == s[i] as int
  {
    seq(|s|, i requires 0 <= i < |s| => s[i] as int as byte)
  }

  /** The ASCII white space that strings.TrimSpace removes. */
  predicate IsSpace(b: byte) {
    b == 9 || b == 10 || b == 11 || b == 12 || b == 13 || b == 32
  }

  /** `s` has no white space at either end. */
  predicate Trimmed(s: Bytes) {
    s == [] || (!IsSpace(s[0]) && !IsSpace(s[|s| - 1]))
  }

  /** The longest suffix of `s` that does not start with white space. */
  function TrimLeft(s: Bytes): (r: Bytes)
    ensures |r| <= |s| && r == s[|s| - |r|..]
    ensures r == [] || !IsSpace(r[0])
    ensures forall i :: 0 <= i < |s| - |r| ==> IsSpace(s[i])
  {
    if s != [] && IsSpace(s[0]) then TrimLeft(s[1..]) else s
  }

  /** The longest prefix of `s` that does not end with white space. */
  function TrimRight(s: Bytes): (r: Bytes)
    ensures |r| <= |s| && r == s[..|r|]
    ensures r == [] || !IsSpace(r[|r| - 1])
    ensures forall i :: |r| <= i < |s| ==> IsSpace(s[i])
  {
    if s != [] && IsSpace(s[|s| - 1]) then TrimRight(s[..|s| - 1]) else s
  }

  /** strings.TrimSpace: `s` without its leading and trailing white space. */
  function Trim(s: Bytes): (r: Bytes)
    ensures Trimmed(r) && |r| <= |s|
  {
    TrimRight(TrimLeft(s))
  }

  /** Trimming removes nothing from a string that is already trimmed. */
  lemma TrimOfTrimmed(s: Bytes)
    requires Trimmed(s)
    ensures Trim(s) == s
  {
    assert TrimLeft(s) == s;
  }

  /** Trimming never introduces a byte that was not there. */
  lemma TrimKeeps(s: Bytes, b: byte)
    requires b in Trim(s)
    ensures b in s
  {
    var l := TrimLeft(s);
    var r := TrimRight(l);
    var j :| 0 <= j < |r| && r[j] == b;
    assert l[j] == b;
    assert s[|s| - |l| + j] == b;
  }

  predicate HasPrefix(s: Bytes, p: Bytes) {
    |p| <= |s| && s[..|p|] == p
  }

  /** strings.TrimPrefix: `s` without `p` in front, if it is there. */
  function TrimPrefix(s: Bytes, p: Bytes): (r: Bytes)
    ensures HasPrefix(s, p) ==> s == p + r
    ensures !HasPrefix(s, p) ==> r == s
  {
    if HasPrefix(s, p) then s[|p|..] else s
  }

  /** strings.Contains: `sub` occurs somewhere in `s`. */
  predicate Contains(s: Bytes, sub: Bytes)
    decreases |s|
  {
    HasPrefix(s, sub) || (s != [] && Contains(s[1..], sub))
  }

  function LowerByte(b: byte): byte {
    if 65 <= b <= 90 then b + 32 else b
  }

  /** strings.ToLower on ASCII letters. */
  function ToLower(s: Bytes): (r: Bytes)
    ensures |r| == |s|
    ensures forall i :: 0 <= i < |s| ==> r[i] == LowerByte(s[i])
  {
    seq(|s|, i requires 0 <= i < |s| => LowerByte(s[i]))
  }

  /** The index of the first `c` in `s`, or `|s|` when there is none. */
  function IndexOf(s: Bytes, c: byte): (i: nat)
    ensures i <= |s|
    ensures i < |s| ==> s[i] == c
    ensures forall j :: 0 <= j < i ==> s[j] != c
    ensures i == |s| <==> c !in s
  {
    if s == [] then 0 else if s[0] == c then 0 else 1 + IndexOf(s[1..], c)
  }

  /** strings.Split with a one-byte separator: the pieces of `s` between the
      separators, at least one (Split of "" is [""]). */
  function Split(s: Bytes, sep: byte): (parts: seq<Bytes>)
    ensures |parts| >= 1
    ensures forall k :: 0 <= k < |parts| ==> sep !in parts[k]
    decreases |s|
  {
    var i := IndexOf(s, sep);
    if i == |s| then [s] else [s[..i]] + Split(s[i + 1..], sep)
  }

  /** strings.Join with a one-byte separator (Join of [] is ""). */
  function Join(parts: seq<Bytes>, sep: byte): Bytes {
    if parts == [] then []
    else if |parts| == 1 then parts[0]
    else parts[0] + [sep] + Join(parts[1..], sep)
  }

  /** Splitting and joining again with the same separator is the identity. */
  lemma {:induction false} JoinSplit(s: Bytes, sep: byte)
    ensures Join(Split(s, sep), sep) == s
    decreases |s|
  {
    var i := IndexOf(s, sep);
    if i < |s| {
      JoinSplit(s[i + 1..], sep);
      JoinCons(s[..i], Split(s[i + 1..], sep), sep);
      CutAt(s, i);
    } else {
      assert Split(s, sep) == [s];
    }
  }

  /** Joining a piece in front of at least one other puts a separator
      between them. */
  lemma JoinCons(x: Bytes, rest: seq<Bytes>, sep: byte)
    requires rest != []
    ensures Join([x] + rest, sep) == x + [sep] + Join(rest, sep)
  {
    assert ([x] + rest)[1..] == rest;
  }

  /** A string is what precedes position `i`, the byte there, and what
      follows. */
  lemma CutAt(s: Bytes, i: nat)
    requires i < |s|
    ensures s == s[..i] + [s[i]] + s[i + 1..]
  {
  }

  /** A string without the separator splits into itself alone. */
  lemma SplitWithout(s: Bytes, sep: byte)
    requires sep !in s
    ensures Split(s, sep) == [s]
  {
  }

  /** The first separator in `a + [sep] + b` is the one after `a`. */
  lemma SplitAfter(a: Bytes, sep: byte, b: Bytes)
    requires sep !in a
    ensures Split(a + [sep] + b, sep) == [a] + Split(b, sep)
  {
    var s := a + [sep] + b;
    assert s[|a|] == sep;
    assert IndexOf(s, sep) == |a|;
    assert s[..|a|] == a && s[|a| + 1..] == b;
  }

  /** The first piece of a split is everything before the first separator,
      and joining the others back gives everything after it. */
  lemma SplitFirst(s: Bytes, sep: byte)
    requires sep in s
    ensures Split(s, sep)[0] == s[..IndexOf(s, sep)]
    ensures Split(s, sep)[1..] == Split(s[IndexOf(s, sep) + 1..], sep)
    ensures Join(Split(s, sep)[1..], sep) == s[IndexOf(s, sep) + 1..]
  {
    JoinSplit(s[IndexOf(s, sep) + 1..], sep);
  }
}
