/**
 What the keys mean: the byte sequences they send, written out, and the text that typing them returns.
 */
module Typing {
  import opened Words
  import opened LineEditor

  // ---------------------------------------------------------------------------------------------
  // Keys as bytes

  /** `code` is what key k sends.  The tilde of Delete and of the keys it ignores may be any byte. */
  predicate IsCode(k: Key, code: seq<Byte>) {
    match k
    case Enter => code == [0x0D] || code == [0x0A]
    case Backspace => code == [0x7F] || code == [0x08]
    case Left => code == [0x1B, 0x5B, 0x44]
    case Right => code == [0x1B, 0x5B, 0x43]
    case Delete => |code| == 4 && code[..3] == [0x1B, 0x5B, 0x33]
    case Char(c) => code == [c] && c !in {0x08, 0x0A, 0x0D, 0x1B, 0x7F}
    case Ignored =>
      || (|code| == 2 && code[0] == 0x1B && code[1] != 0x5B)
      || (|code| == 3 && code[..2] == [0x1B, 0x5B] && code[2] !in {0x43, 0x44} && !(0x30 <= code[2] <= 0x39))
      || (|code| == 4 && code[..2] == [0x1B, 0x5B] && 0x30 <= code[2] <= 0x39 && code[2] != 0x33)
  }

  predicate AreCodes(keys: seq<Key>, codes: seq<seq<Byte>>) {
    |keys| == |codes| && forall k :: 0 <= k < |keys| ==> IsCode(keys[k], codes[k])
  }

  function Flat(codes: seq<seq<Byte>>): seq<Byte> {
    if codes == [] then [] else codes[0] + Flat(codes[1..])
  }

  /** The decoder reads the key off the bytes it sends, wherever they stand, and stops behind them. */
  lemma CodeIsRead(before: seq<Byte>, key: Key, code: seq<Byte>, after: seq<Byte>)
    requires IsCode(key, code)
    ensures NextKey(before + code + after, |before|) == Some((key, |before| + |code|))
  {
    var input := before + code + after;
    assert forall j :: 0 <= j < |code| ==> input[|before| + j] == code[j];
    if key.Delete? {
      assert code[..3][0] == code[0] && code[..3][1] == code[1] && code[..3][2] == code[2];
    } else if key.Ignored? && |code| >= 3 {
      assert code[..2][0] == code[0] && code[..2][1] == code[1];
    }
  }

  lemma KeyThenRest(input: seq<Byte>, i: nat, key: Key, j: nat, rest: seq<Key>)
    requires NextKey(input, i) == Some((key, j)) && key != Enter && Decode(input, j) == Decoded(rest, true)
    ensures Decode(input, i) == Decoded([key] + rest, true)
  {
  }

  lemma {:induction false} KeysAreRead(before: seq<Byte>, keys: seq<Key>, codes: seq<seq<Byte>>, enter: Byte, after: seq<Byte>)
    requires AreCodes(keys, codes) && Enter !in keys && (enter == 0x0D || enter == 0x0A)
    ensures Decode(before + Flat(codes) + [enter] + after, |before|) == Decoded(keys, true)
    decreases |keys|
  {
    var input := before + Flat(codes) + [enter] + after;
    if keys == [] {
      assert input == before + [enter] + after;
      CodeIsRead(before, Enter, [enter], after);
    } else {
      var rest := Flat(codes[1..]) + [enter] + after;
      assert input == before + codes[0] + rest;
      CodeIsRead(before, keys[0], codes[0], rest);
      assert input == (before + codes[0]) + Flat(codes[1..]) + [enter] + after;
      KeysAreRead(before + codes[0], keys[1..], codes[1..], enter, after);
      KeyThenRest(input, |before|, keys[0], |before + codes[0]|, keys[1..]);
      assert keys == [keys[0]] + keys[1..];
    }
  }

  /** For every sequence of keys without Enter, whatever variant of its bytes each key sends: decoding the
      bytes followed by CR or LF gives exactly those keys, entered, and looks no further. */
  lemma DecodeEncoded(keys: seq<Key>, codes: seq<seq<Byte>>, enter: Byte, after: seq<Byte>)
    requires AreCodes(keys, codes) && Enter !in keys && (enter == 0x0D || enter == 0x0A)
    ensures Decode(Flat(codes) + [enter] + after, 0) == Decoded(keys, true)
  {
    KeysAreRead([], keys, codes, enter, after);
    assert [] + Flat(codes) + [enter] + after == Flat(codes) + [enter] + after;
  }

  /** Conversely, every key the decoder reports is one whose bytes stood there. */
  lemma OnlyCodesAreRead(input: seq<Byte>, i: nat)
    requires NextKey(input, i).Some?
    ensures var (key, j) := NextKey(input, i).value; i < j <= |input| && IsCode(key, input[i..j])
  {
    var (key, j) := NextKey(input, i).value;
    var code := input[i..j];
    assert forall k :: 0 <= k < |code| ==> code[k] == input[i + k];
    if |code| == 3 {
      assert code == [code[0], code[1], code[2]];
    }
  }

  // ---------------------------------------------------------------------------------------------
  // Typing

  /** The text that fetch_input returns for these keys. */
  function TextOf(keys: seq<Key>, maxLen: nat): seq<Byte>
    requires maxLen >= 1
  {
    var z := Edit(EMPTY, keys, maxLen);
    z.left + z.right
  }

  function Chars(s: seq<Byte>): seq<Key> { seq(|s|, k requires 0 <= k < |s| => Char(s[k])) }

  function Times(n: nat, key: Key): seq<Key> { seq(n, _ => key) }

  lemma {:induction false} EditAppend(z: Zipper, a: seq<Key>, b: seq<Key>, maxLen: nat)
    requires maxLen >= 1
    ensures Edit(z, a + b, maxLen) == Edit(Edit(z, a, maxLen), b, maxLen)
    decreases |a|
  {
    if a == [] {
      assert a + b == b;
    } else {
      assert (a + b)[1..] == a[1..] + b;
      EditAppend(Apply(z, a[0], maxLen), a[1..], b, maxLen);
    }
  }

  lemma OneEdit(z: Zipper, key: Key, maxLen: nat)
    requires maxLen >= 1
    ensures Edit(z, [key], maxLen) == Apply(z, key, maxLen)
  {
    assert [key][1..] == [];
  }

  lemma {:induction false} EditChars(z: Zipper, s: seq<Byte>, maxLen: nat)
    requires Size(z) + |s| <= maxLen - 1
    ensures Edit(z, Chars(s), maxLen) == Zipper(z.left + s, z.right)
    decreases |s|
  {
    if s == [] {
      assert z.left + s == z.left;
    } else {
      assert Chars(s)[1..] == Chars(s[1..]);
      EditChars(Zipper(z.left + [s[0]], z.right), s[1..], maxLen);
      assert z.left + [s[0]] + s[1..] == z.left + s;
    }
  }

  lemma {:induction false} EditLefts(left: seq<Byte>, v: seq<Byte>, right: seq<Byte>, maxLen: nat)
    requires maxLen >= 1
    ensures Edit(Zipper(left + v, right), Times(|v|, Left), maxLen) == Zipper(left, v + right)
    decreases |v|
  {
    if v == [] {
      assert left + v == left && v + right == right;
    } else {
      var n := |v| - 1;
      assert Times(|v|, Left)[1..] == Times(n, Left);
      assert (left + v)[..|left + v| - 1] == left + v[..n];
      EditLefts(left, v[..n], [v[n]] + right, maxLen);
      assert v[..n] + ([v[n]] + right) == v + right;
    }
  }

  lemma {:induction false} EditRights(left: seq<Byte>, v: seq<Byte>, right: seq<Byte>, maxLen: nat)
    requires maxLen >= 1
    ensures Edit(Zipper(left, v + right), Times(|v|, Right), maxLen) == Zipper(left + v, right)
    decreases |v|
  {
    if v == [] {
      assert left + v == left && v + right == right;
    } else {
      assert Times(|v|, Right)[1..] == Times(|v| - 1, Right);
      assert (v + right)[1..] == v[1..] + right;
      EditRights(left + [v[0]], v[1..], right, maxLen);
      assert left + [v[0]] + v[1..] == left + v;
    }
  }

  /** Typing u + v and moving back over v leaves the cursor between them. */
  lemma CursorBetween(u: seq<Byte>, v: seq<Byte>, maxLen: nat)
    requires |u| + |v| <= maxLen - 1
    ensures Edit(EMPTY, Chars(u + v) + Times(|v|, Left), maxLen) == Zipper(u, v)
  {
    EditAppend(EMPTY, Chars(u + v), Times(|v|, Left), maxLen);
    EditChars(EMPTY, u + v, maxLen);
    assert [] + (u + v) == u + v;
    EditLefts(u, v, [], maxLen);
    assert v + [] == v;
  }

  /** u, v typed, |v| times cursor left, then c: the text is u, c, v. */
  lemma TypedInTheMiddle(u: seq<Byte>, v: seq<Byte>, c: Byte, maxLen: nat)
    requires |u| + |v| + 1 <= maxLen - 1
    ensures TextOf(Chars(u + v) + Times(|v|, Left) + [Char(c)], maxLen) == u + [c] + v
  {
    CursorBetween(u, v, maxLen);
    EditAppend(EMPTY, Chars(u + v) + Times(|v|, Left), [Char(c)], maxLen);
    OneEdit(Zipper(u, v), Char(c), maxLen);
  }

  /** Cursor right takes back cursor left: after |w| more to the right, c stands behind w. */
  lemma TypedAfterMovingBack(u: seq<Byte>, w: seq<Byte>, x: seq<Byte>, c: Byte, maxLen: nat)
    requires |u| + |w| + |x| + 1 <= maxLen - 1
    ensures TextOf(Chars(u + (w + x)) + Times(|w + x|, Left) + Times(|w|, Right) + [Char(c)], maxLen) == u + w + [c] + x
  {
    var moved := Chars(u + (w + x)) + Times(|w + x|, Left);
    CursorBetween(u, w + x, maxLen);
    EditAppend(EMPTY, moved, Times(|w|, Right), maxLen);
    EditRights(u, w, x, maxLen);
    EditAppend(EMPTY, moved + Times(|w|, Right), [Char(c)], maxLen);
    OneEdit(Zipper(u + w, x), Char(c), maxLen);
  }

  /** Delete takes the character behind the cursor, Backspace the one before it; at the end and at the
      beginning they take nothing. */
  lemma TypedAndRemoved(u: seq<Byte>, v: seq<Byte>, maxLen: nat)
    requires |u| + |v| <= maxLen - 1
    ensures TextOf(Chars(u + v) + Times(|v|, Left) + [Delete], maxLen) == u + (if v == [] then [] else v[1..])
    ensures TextOf(Chars(u + v) + Times(|v|, Left) + [Backspace], maxLen) == (if u == [] then [] else u[..|u| - 1]) + v
  {
    CursorBetween(u, v, maxLen);
    EditAppend(EMPTY, Chars(u + v) + Times(|v|, Left), [Delete], maxLen);
    EditAppend(EMPTY, Chars(u + v) + Times(|v|, Left), [Backspace], maxLen);
    OneEdit(Zipper(u, v), Delete, maxLen);
    OneEdit(Zipper(u, v), Backspace, maxLen);
  }

  lemma {:induction false} EditFull(z: Zipper, s: seq<Byte>, maxLen: nat)
    requires Size(z) == maxLen - 1
    ensures Edit(z, Chars(s), maxLen) == z
    decreases |s|
  {
    if s != [] {
      assert Chars(s)[1..] == Chars(s[1..]);
      EditFull(z, s[1..], maxLen);
    }
  }

  /** Of a text that does not fit, exactly the first max_len - 1 characters are kept. */
  lemma TypedTooMuch(s: seq<Byte>, maxLen: nat)
    requires 1 <= maxLen <= |s| + 1
    ensures TextOf(Chars(s), maxLen) == s[..maxLen - 1]
  {
    var kept, lost := s[..maxLen - 1], s[maxLen - 1..];
    assert Chars(s) == Chars(kept) + Chars(lost);
    EditAppend(EMPTY, Chars(kept), Chars(lost), maxLen);
    EditChars(EMPTY, kept, maxLen);
    assert [] + kept == kept;
    EditFull(Zipper(kept, []), lost, maxLen);
    assert kept + [] == kept;
  }

  predicate IsPlain(s: seq<Byte>) { forall k :: 0 <= k < |s| ==> s[k] !in {0x08, 0x0A, 0x0D, 0x1B, 0x7F} }

  function Repeat(n: nat, code: seq<Byte>): seq<seq<Byte>> { seq(n, _ => code) }

  function Singles(s: seq<Byte>): seq<seq<Byte>> { seq(|s|, k requires 0 <= k < |s| => [s[k]]) }

  /** fetch_input on literal bytes: "ab", ESC [ D, "c", CR gives "acb", and so for all plain u, v, c. */
  method TypeInTheMiddle(buf: array<Byte>, maxLen: nat, u: seq<Byte>, v: seq<Byte>, c: Byte) returns (len: nat)
    requires 1 <= maxLen <= buf.Length && |u| + |v| + 1 <= maxLen - 1 && IsPlain(u) && IsPlain(v) && IsPlain([c])
    modifies buf
    ensures len == |u| + |v| + 1 && buf[..len] == u + [c] + v && buf[len] == 0
  {
    var codes := Singles(u + v) + Repeat(|v|, [0x1B, 0x5B, 0x44]) + [[c]];
    ghost var keys := Chars(u + v) + Times(|v|, Left) + [Char(c)];
    assert IsPlain([c]) ==> [c][0] !in {0x08, 0x0A, 0x0D, 0x1B, 0x7F};
    assert AreCodes(keys, codes);
    DecodeEncoded(keys, codes, 0x0D, []);
    assert Flat(codes) + [0x0D] + [] == Flat(codes) + [0x0D];
    TypedInTheMiddle(u, v, c, maxLen);
    var entered, out;
    entered, len, out := FetchInput(buf, maxLen, Flat(codes) + [0x0D]);
  }
}
