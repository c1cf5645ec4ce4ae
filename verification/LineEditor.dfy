/**
 fetch_input: a line is edited in place under a cursor while the bytes sent back keep the remote
 terminal's row in step.  The editor is proved against a zipper, and its echo against a terminal row
 that understands BS, EL and CUF (ECMA-48, sections 8.3.5, 8.3.41 and 8.3.20).
 */
module LineEditor {
  import opened Words

  const NUL: Byte := 0x00
  const BS: Byte := 0x08
  const LF: Byte := 0x0A
  const CR: Byte := 0x0D
  const ESC: Byte := 0x1B
  const SPACE: Byte := 0x20
  const DEL: Byte := 0x7F
  const LBRACKET: Byte := 0x5B
  const UPPER_C: Byte := 0x43
  const UPPER_D: Byte := 0x44
  const UPPER_K: Byte := 0x4B
  const DIGIT_0: Byte := 0x30
  const DIGIT_3: Byte := 0x33
  const DIGIT_9: Byte := 0x39

  // ---------------------------------------------------------------------------------------------
  // Keys

  datatype Key = Enter | Backspace | Left | Right | Delete | Ignored | Char(c: Byte)

  /** The key that starts at position i and the position after it; None when more bytes are needed. */
  function NextKey(input: seq<Byte>, i: nat): (r: Option<(Key, nat)>)
    ensures r.Some? ==> i < r.value.1 <= |input|
  {
    if i >= |input| then None
    else if input[i] == CR || input[i] == LF then Some((Enter, i + 1))
    else if input[i] == DEL || input[i] == BS then Some((Backspace, i + 1))
    else if input[i] != ESC then Some((Char(input[i]), i + 1))
    else if i + 1 >= |input| then None
    else if input[i + 1] != LBRACKET then Some((Ignored, i + 2))
    else if i + 2 >= |input| then None
    else if input[i + 2] == UPPER_D then Some((Left, i + 3))
    else if input[i + 2] == UPPER_C then Some((Right, i + 3))
    else if !(DIGIT_0 <= input[i + 2] <= DIGIT_9) then Some((Ignored, i + 3))
    else if i + 3 >= |input| then None
    else if input[i + 2] == DIGIT_3 then Some((Delete, i + 4))
    else Some((Ignored, i + 4))
  }

  // keys: those before Enter, or before the input runs out.
  datatype Decoded = Decoded(keys: seq<Key>, entered: bool)

  function Decode(input: seq<Byte>, i: nat): Decoded
    decreases |input| - i
  {
    match NextKey(input, i)
    case None => Decoded([], false)
    case Some((key, j)) =>
      if key == Enter then Decoded([], true)
      else
        var rest := Decode(input, j);
        rest.(keys := [key] + rest.keys)
  }

  // ---------------------------------------------------------------------------------------------
  // The abstract editor

  datatype Zipper = Zipper(left: seq<Byte>, right: seq<Byte>)

  const EMPTY := Zipper([], [])

  function Size(z: Zipper): nat { |z.left| + |z.right| }

  function Apply(z: Zipper, key: Key, maxLen: nat): Zipper
    requires maxLen >= 1
  {
    match key
    case Backspace => if z.left == [] then z else Zipper(z.left[..|z.left| - 1], z.right)
    case Delete => if z.right == [] then z else Zipper(z.left, z.right[1..])
    case Left => if z.left == [] then z else Zipper(z.left[..|z.left| - 1], [z.left[|z.left| - 1]] + z.right)
    case Right => if z.right == [] then z else Zipper(z.left + [z.right[0]], z.right[1..])
    case Char(c) => if Size(z) < maxLen - 1 then Zipper(z.left + [c], z.right) else z
    case Enter => z
    case Ignored => z
  }

  function Edit(z: Zipper, keys: seq<Key>, maxLen: nat): Zipper
    requires maxLen >= 1
    decreases |keys|
  {
    if keys == [] then z else Edit(Apply(z, keys[0], maxLen), keys[1..], maxLen)
  }

  // ---------------------------------------------------------------------------------------------
  // The bytes sent back

  function Backs(n: nat): (s: seq<Byte>)
    ensures |s| == n
  {
    if n == 0 then [] else Backs(n - 1) + [BS]
  }

  const ERASE_LINE: seq<Byte> := [ESC, LBRACKET, UPPER_K]
  const CURSOR_RIGHT: seq<Byte> := [ESC, LBRACKET, UPPER_C]

  /** Rewrites the tail after the cursor and comes back. */
  function Redraw(tail: seq<Byte>): seq<Byte> { tail + Backs(|tail|) }

  function Echo(z: Zipper, key: Key, maxLen: nat): seq<Byte>
    requires maxLen >= 1
  {
    match key
    case Backspace => if z.left == [] then [] else [BS] + ERASE_LINE + Redraw(z.right)
    case Delete => if z.right == [] then [] else ERASE_LINE + Redraw(z.right[1..])
    case Left => if z.left == [] then [] else [BS]
    case Right => if z.right == [] then [] else CURSOR_RIGHT
    case Char(c) => if Size(z) < maxLen - 1 then [c] + Redraw(z.right) else []
    case Enter => []
    case Ignored => []
  }

  /** The bytes of the echo, written out. */
  lemma EchoBytes(z: Zipper, c: Byte, maxLen: nat)
    requires maxLen >= 1
    ensures z.left != [] ==> Echo(z, Backspace, maxLen) == [0x08] + [0x1B, 0x5B, 0x4B] + (z.right + Backs(|z.right|))
    ensures z.right != [] ==> Echo(z, Delete, maxLen) == [0x1B, 0x5B, 0x4B] + (z.right[1..] + Backs(|z.right| - 1))
    ensures z.left != [] ==> Echo(z, Left, maxLen) == [0x08]
    ensures z.right != [] ==> Echo(z, Right, maxLen) == [0x1B, 0x5B, 0x43]
    ensures Size(z) < maxLen - 1 ==> Echo(z, Char(c), maxLen) == [c] + (z.right + Backs(|z.right|))
    ensures forall k :: 0 <= k < |z.right| ==> Backs(|z.right|)[k] == 0x08
  {
    OnlyBacks(|z.right|);
  }

  lemma {:induction false} OnlyBacks(n: nat)
    ensures forall k :: 0 <= k < n ==> Backs(n)[k] == 0x08
  {
    if n > 0 {
      OnlyBacks(n - 1);
    }
  }

  function EchoAll(z: Zipper, keys: seq<Key>, maxLen: nat): seq<Byte>
    requires maxLen >= 1
    decreases |keys|
  {
    if keys == [] then [] else Echo(z, keys[0], maxLen) + EchoAll(Apply(z, keys[0], maxLen), keys[1..], maxLen)
  }

  // ---------------------------------------------------------------------------------------------
  // A terminal row

  datatype Mode = Ground | Escape | Control
  datatype Term = Term(row: seq<Byte>, col: nat, mode: Mode)

  predicate IsPrintable(b: Byte) { 0x20 <= b <= 0x7E }

  function Blanks(n: nat): seq<Byte> { seq(n, _ => SPACE) }

  function FeedTerm(t: Term, b: Byte): Term {
    match t.mode
    case Ground =>
      if b == BS then t.(col := if t.col > 0 then t.col - 1 else 0)
      else if b == ESC then t.(mode := Escape)
      else if b == CR then t.(col := 0)
      else if IsPrintable(b) && t.col < |t.row| then
        t.(row := t.row[t.col := b], col := if t.col + 1 < |t.row| then t.col + 1 else t.col)
      else t
    case Escape => t.(mode := if b == LBRACKET then Control else Ground)
    case Control =>
      if b == UPPER_K && t.col <= |t.row| then t.(row := t.row[..t.col] + Blanks(|t.row| - t.col), mode := Ground)
      else if b == UPPER_C then t.(col := if t.col + 1 < |t.row| then t.col + 1 else t.col, mode := Ground)
      else t.(mode := Ground)
  }

  function FeedAll(t: Term, s: seq<Byte>): Term {
    if s == [] then t else FeedTerm(FeedAll(t, s[..|s| - 1]), s[|s| - 1])
  }

  lemma {:induction false} FeedAppend(t: Term, a: seq<Byte>, b: seq<Byte>)
    ensures FeedAll(t, a + b) == FeedAll(FeedAll(t, a), b)
    decreases |b|
  {
    if b == [] {
      assert a + b == a;
    } else {
      assert (a + b)[..|a + b| - 1] == a + b[..|b| - 1];
      FeedAppend(t, a, b[..|b| - 1]);
    }
  }

  /** The row is the prompt, the text, and blanks; the cursor stands between left and right. */
  predicate Shows(t: Term, prompt: seq<Byte>, width: nat, z: Zipper) {
    && |prompt| + Size(z) < width
    && t == Term(prompt + z.left + z.right + Blanks(width - |prompt| - Size(z)), |prompt| + |z.left|, Ground)
  }

  predicate AllPrintable(s: seq<Byte>) { forall k :: 0 <= k < |s| ==> IsPrintable(s[k]) }

  lemma {:induction false} FeedText(before: seq<Byte>, s: seq<Byte>, over: seq<Byte>, after: seq<Byte>)
    requires AllPrintable(s) && |over| == |s| && after != []
    ensures FeedAll(Term(before + over + after, |before|, Ground), s) == Term(before + s + after, |before| + |s|, Ground)
    decreases |s|
  {
    if s == [] {
      assert before + over + after == before + s + after;
    } else {
      var n := |s| - 1;
      var t := Term(before + over + after, |before|, Ground);
      assert before + over + after == before + over[..n] + ([over[n]] + after);
      FeedText(before, s[..n], over[..n], [over[n]] + after);
      assert (before + s[..n] + ([over[n]] + after))[|before| + n := s[n]] == before + s + after;
    }
  }

  lemma {:induction false} FeedBacks(t: Term, n: nat)
    requires t.mode == Ground && n <= t.col
    ensures FeedAll(t, Backs(n)) == t.(col := t.col - n)
  {
    if n > 0 {
      FeedBacks(t, n - 1);
    }
  }

  lemma FeedRedraw(before: seq<Byte>, tail: seq<Byte>, over: seq<Byte>, after: seq<Byte>)
    requires AllPrintable(tail) && |over| == |tail| && after != []
    ensures FeedAll(Term(before + over + after, |before|, Ground), Redraw(tail)) == Term(before + tail + after, |before|, Ground)
  {
    FeedAppend(Term(before + over + after, |before|, Ground), tail, Backs(|tail|));
    FeedText(before, tail, over, after);
    FeedBacks(Term(before + tail + after, |before| + |tail|, Ground), |tail|);
  }

  lemma FeedOne(t: Term, b: Byte)
    ensures FeedAll(t, [b]) == FeedTerm(t, b)
  {
    assert [b][..0] == [];
  }

  lemma FeedErase(before: seq<Byte>, after: seq<Byte>)
    ensures FeedAll(Term(before + after, |before|, Ground), ERASE_LINE) ==
            Term(before + Blanks(|after|), |before|, Ground)
  {
    var t := Term(before + after, |before|, Ground);
    assert ERASE_LINE == [ESC] + [LBRACKET] + [UPPER_K];
    FeedAppend(t, [ESC] + [LBRACKET], [UPPER_K]);
    FeedAppend(t, [ESC], [LBRACKET]);
    FeedOne(t, ESC);
    FeedOne(t.(mode := Escape), LBRACKET);
    FeedOne(t.(mode := Control), UPPER_K);
    assert (before + after)[..|before|] == before;
  }

  lemma FeedCursorRight(t: Term)
    requires t.mode == Ground
    ensures FeedAll(t, CURSOR_RIGHT) == t.(col := if t.col + 1 < |t.row| then t.col + 1 else t.col)
  {
    assert CURSOR_RIGHT == [ESC] + [LBRACKET] + [UPPER_C];
    FeedAppend(t, [ESC] + [LBRACKET], [UPPER_C]);
    FeedAppend(t, [ESC], [LBRACKET]);
    FeedOne(t, ESC);
    FeedOne(t.(mode := Escape), LBRACKET);
    FeedOne(t.(mode := Control), UPPER_C);
  }

  // ---------------------------------------------------------------------------------------------
  // Each key keeps the screen true

  lemma SplitBlanks(m: nat, n: nat)
    ensures Blanks(m + n) == Blanks(m) + Blanks(n)
  {
  }

  lemma CharShows(t: Term, prompt: seq<Byte>, width: nat, z: Zipper, c: Byte)
    requires Shows(t, prompt, width, z) && AllPrintable(z.right) && IsPrintable(c) && |prompt| + Size(z) + 1 < width
    ensures Shows(FeedAll(t, [c] + Redraw(z.right)), prompt, width, Zipper(z.left + [c], z.right))
  {
    var before, rest := prompt + z.left, width - |prompt| - Size(z);
    var cells := z.right + Blanks(rest);
    var over := cells[1..|z.right| + 1];
    assert cells[|z.right| + 1..] == Blanks(rest - 1);
    assert cells == [cells[0]] + (over + Blanks(rest - 1));
    assert t.row == before + ([cells[0]] + (over + Blanks(rest - 1)));
    FeedAppend(t, [c], Redraw(z.right));
    FeedOne(t, c);
    PutCell(before, cells[0], over + Blanks(rest - 1), c);
    assert FeedTerm(t, c) == Term((before + [c]) + (over + Blanks(rest - 1)), |before + [c]|, Ground);
    assert (before + [c]) + (over + Blanks(rest - 1)) == (before + [c]) + over + Blanks(rest - 1);
    FeedRedraw(before + [c], z.right, over, Blanks(rest - 1));
    assert before + [c] == prompt + (z.left + [c]);
  }

  lemma PutCell(before: seq<Byte>, cell: Byte, rest: seq<Byte>, c: Byte)
    ensures (before + ([cell] + rest))[|before| := c] == (before + [c]) + rest
  {
  }

  lemma EraseAndRedrawShows(t: Term, prompt: seq<Byte>, width: nat, left: seq<Byte>, stale: seq<Byte>, right: seq<Byte>)
    requires |right| <= |stale| && |prompt| + |left| + |stale| == width && |prompt| + |left| + |right| < width && AllPrintable(right)
    requires t == Term(prompt + left + stale, |prompt| + |left|, Ground)
    ensures Shows(FeedAll(t, ERASE_LINE + Redraw(right)), prompt, width, Zipper(left, right))
  {
    var before, rest := prompt + left, width - |prompt| - |left| - |right|;
    FeedAppend(t, ERASE_LINE, Redraw(right));
    FeedErase(before, stale);
    SplitBlanks(|right|, rest);
    assert before + Blanks(|stale|) == before + Blanks(|right|) + Blanks(rest);
    FeedRedraw(before, right, Blanks(|right|), Blanks(rest));
  }

  lemma BackspaceShows(t: Term, prompt: seq<Byte>, width: nat, z: Zipper)
    requires Shows(t, prompt, width, z) && AllPrintable(z.right) && z.left != []
    ensures Shows(FeedAll(t, [BS] + ERASE_LINE + Redraw(z.right)), prompt, width, Zipper(z.left[..|z.left| - 1], z.right))
  {
    var n := |z.left| - 1;
    var rest := [z.left[n]] + z.right + Blanks(width - |prompt| - Size(z));
    assert [BS] + ERASE_LINE + Redraw(z.right) == [BS] + (ERASE_LINE + Redraw(z.right));
    FeedAppend(t, [BS], ERASE_LINE + Redraw(z.right));
    FeedOne(t, BS);
    assert t.row == prompt + z.left[..n] + rest;
    EraseAndRedrawShows(t.(col := t.col - 1), prompt, width, z.left[..n], rest, z.right);
  }

  lemma DeleteShows(t: Term, prompt: seq<Byte>, width: nat, z: Zipper)
    requires Shows(t, prompt, width, z) && AllPrintable(z.right) && z.right != []
    ensures Shows(FeedAll(t, ERASE_LINE + Redraw(z.right[1..])), prompt, width, Zipper(z.left, z.right[1..]))
  {
    var rest := z.right + Blanks(width - |prompt| - Size(z));
    assert t.row == prompt + z.left + rest;
    EraseAndRedrawShows(t, prompt, width, z.left, rest, z.right[1..]);
  }

  lemma MoveShows(t: Term, prompt: seq<Byte>, width: nat, z: Zipper)
    requires Shows(t, prompt, width, z)
    ensures z.left != [] ==> Shows(FeedAll(t, [BS]), prompt, width, Apply(z, Left, 1))
    ensures z.right != [] ==> Shows(FeedAll(t, CURSOR_RIGHT), prompt, width, Apply(z, Right, 1))
  {
    FeedOne(t, BS);
    FeedCursorRight(t);
    if z.left != [] {
      var n := |z.left| - 1;
      assert prompt + z.left + z.right == prompt + z.left[..n] + ([z.left[n]] + z.right);
    }
    if z.right != [] {
      assert prompt + z.left + z.right == prompt + (z.left + [z.right[0]]) + z.right[1..];
    }
  }

  /** One key: what the zipper holds afterwards is what the row shows afterwards. */
  lemma KeyKeepsScreenTrue(t: Term, prompt: seq<Byte>, width: nat, z: Zipper, key: Key, maxLen: nat)
    requires maxLen >= 1 && |prompt| + maxLen <= width
    requires Shows(t, prompt, width, z) && AllPrintable(z.left) && AllPrintable(z.right)
    requires key.Char? && Size(z) < maxLen - 1 ==> IsPrintable(key.c)
    ensures Shows(FeedAll(t, Echo(z, key, maxLen)), prompt, width, Apply(z, key, maxLen))
    ensures AllPrintable(Apply(z, key, maxLen).left) && AllPrintable(Apply(z, key, maxLen).right)
  {
    match key
    case Char(c) => if Size(z) < maxLen - 1 { CharShows(t, prompt, width, z, c); }
    case Backspace => if z.left != [] { BackspaceShows(t, prompt, width, z); }
    case Delete => if z.right != [] { DeleteShows(t, prompt, width, z); }
    case Left => MoveShows(t, prompt, width, z);
    case Right => MoveShows(t, prompt, width, z);
    case Enter =>
    case Ignored =>
  }

  // ---------------------------------------------------------------------------------------------
  // The whole line

  /** A key that Decode can produce: no Char stands for a byte that has a meaning of its own. */
  predicate IsDecoded(key: Key) { key.Char? ==> key.c !in {BS, LF, CR, ESC, DEL} }

  lemma {:induction false} DecodeYieldsDecoded(input: seq<Byte>, i: nat)
    ensures forall k :: 0 <= k < |Decode(input, i).keys| ==> IsDecoded(Decode(input, i).keys[k])
    decreases |input| - i
  {
    var r := NextKey(input, i);
    if r.Some? && r.value.0 != Enter {
      DecodeYieldsDecoded(input, r.value.1);
    }
  }

  /** The row shows the zipper now and after every further key. */
  ghost predicate AlwaysShows(t: Term, prompt: seq<Byte>, width: nat, z: Zipper, keys: seq<Key>, maxLen: nat)
    requires maxLen >= 1
    decreases |keys|
  {
    && Shows(t, prompt, width, z)
    && (keys != [] ==>
          AlwaysShows(FeedAll(t, Echo(z, keys[0], maxLen)), prompt, width, Apply(z, keys[0], maxLen), keys[1..], maxLen))
  }

  /** Every byte that finds room in the buffer is printable. */
  predicate AcceptsOnlyPrintable(z: Zipper, keys: seq<Key>, maxLen: nat)
    requires maxLen >= 1
    decreases |keys|
  {
    keys == []
    || ((keys[0].Char? && Size(z) < maxLen - 1 ==> IsPrintable(keys[0].c))
        && AcceptsOnlyPrintable(Apply(z, keys[0], maxLen), keys[1..], maxLen))
  }

  /** An accepted control byte leaves the cursor one column short. */
  lemma UnprintableBreaksScreen(t: Term, prompt: seq<Byte>, width: nat, z: Zipper, c: Byte, maxLen: nat)
    requires maxLen >= 1 && |prompt| + maxLen <= width && Size(z) < maxLen - 1
    requires Shows(t, prompt, width, z) && AllPrintable(z.left) && AllPrintable(z.right)
    requires IsDecoded(Char(c)) && !IsPrintable(c)
    ensures !Shows(FeedAll(t, Echo(z, Char(c), maxLen)), prompt, width, Apply(z, Char(c), maxLen))
  {
    FeedAppend(t, [c], Redraw(z.right));
    FeedOne(t, c);
    FeedRedraw(prompt + z.left, z.right, z.right, Blanks(width - |prompt| - Size(z)));
  }

  lemma {:induction false} ScreenIsTrueFrom(t: Term, prompt: seq<Byte>, width: nat, z: Zipper, keys: seq<Key>, maxLen: nat)
    requires maxLen >= 1 && |prompt| + maxLen <= width
    requires Shows(t, prompt, width, z) && AllPrintable(z.left) && AllPrintable(z.right)
    requires forall k :: 0 <= k < |keys| ==> IsDecoded(keys[k])
    ensures AlwaysShows(t, prompt, width, z, keys, maxLen) <==> AcceptsOnlyPrintable(z, keys, maxLen)
    ensures AcceptsOnlyPrintable(z, keys, maxLen) ==>
              Shows(FeedAll(t, EchoAll(z, keys, maxLen)), prompt, width, Edit(z, keys, maxLen))
    decreases |keys|
  {
    if keys != [] {
      var key := keys[0];
      if key.Char? && Size(z) < maxLen - 1 && !IsPrintable(key.c) {
        UnprintableBreaksScreen(t, prompt, width, z, key.c, maxLen);
      } else {
        var t', z' := FeedAll(t, Echo(z, key, maxLen)), Apply(z, key, maxLen);
        KeyKeepsScreenTrue(t, prompt, width, z, key, maxLen);
        FeedAppend(t, Echo(z, key, maxLen), EchoAll(z', keys[1..], maxLen));
        ScreenIsTrueFrom(t', prompt, width, z', keys[1..], maxLen);
      }
    }
  }

  /** For every input: the row shows the text and the cursor after each key if and only if every byte
      accepted into the buffer is printable; and then it shows the final text. */
  lemma EchoKeepsScreenTrue(prompt: seq<Byte>, width: nat, input: seq<Byte>, maxLen: nat)
    requires maxLen >= 1 && |prompt| + maxLen <= width
    ensures var keys := Decode(input, 0).keys;
            var blank := Term(prompt + Blanks(width - |prompt|), |prompt|, Ground);
            && (AlwaysShows(blank, prompt, width, EMPTY, keys, maxLen) <==> AcceptsOnlyPrintable(EMPTY, keys, maxLen))
            && (AcceptsOnlyPrintable(EMPTY, keys, maxLen) ==>
                  Shows(FeedAll(blank, EchoAll(EMPTY, keys, maxLen)), prompt, width, Edit(EMPTY, keys, maxLen)))
  {
    var blank := Term(prompt + Blanks(width - |prompt|), |prompt|, Ground);
    assert prompt + [] + [] + Blanks(width - |prompt|) == prompt + Blanks(width - |prompt|);
    DecodeYieldsDecoded(input, 0);
    ScreenIsTrueFrom(blank, prompt, width, EMPTY, Decode(input, 0).keys, maxLen);
  }

  /** The condition matters: one control byte followed by Enter is stored but not shown. */
  lemma ControlByteIsNotShown()
    ensures Decode([0x01, CR], 0) == Decoded([Char(0x01)], true)
    ensures Edit(EMPTY, [Char(0x01)], 32) == Zipper([0x01], [])
    ensures !AlwaysShows(Term(Blanks(80), 0, Ground), [], 80, EMPTY, [Char(0x01)], 32)
  {
    assert Decode([0x01, CR], 1) == Decoded([], true);
    assert [Char(0x01)][1..] == [];
    assert [] + [] + [] + Blanks(80) == Blanks(80);
    ScreenIsTrueFrom(Term(Blanks(80), 0, Ground), [], 80, EMPTY, [Char(0x01)], 32);
  }

  // ---------------------------------------------------------------------------------------------
  // The editor in place

  /** for (i = from; i < len - 1; i++) buf[i] = buf[i + 1]; */
  method ShiftLeft(buf: array<Byte>, from: nat, len: nat)
    requires from < len <= buf.Length
    modifies buf
    ensures buf[..] == old(buf[..from]) + old(buf[from + 1..len]) + old(buf[len - 1..])
  {
    for i := from to len - 1
      invariant buf[..i] == old(buf[..from]) + old(buf[from + 1..i + 1])
      invariant buf[i..] == old(buf[i..])
    {
      buf[i] := buf[i + 1];
    }
    assert buf[..] == buf[..len - 1] + buf[len - 1..];
  }

  lemma ShiftedRight(before: seq<Byte>, after: seq<Byte>, pos: nat, len: nat)
    requires pos <= len < |before| == |after|
    requires forall j :: 0 <= j <= pos || len < j < |after| ==> after[j] == before[j]
    requires forall j :: pos < j <= len ==> after[j] == before[j - 1]
    ensures after == before[..pos + 1] + before[pos..len] + before[len + 1..]
  {
  }

  /** for (i = len; i > pos; i--) buf[i] = buf[i - 1]; */
  method ShiftRight(buf: array<Byte>, pos: nat, len: nat)
    requires pos <= len < buf.Length
    modifies buf
    ensures buf[..] == old(buf[..])[..pos + 1] + old(buf[..])[pos..len] + old(buf[..])[len + 1..]
  {
    var i := len;
    while i > pos
      invariant pos <= i <= len
      invariant forall j :: 0 <= j <= i || len < j < buf.Length ==> buf[j] == old(buf[j])
      invariant forall j :: i < j <= len ==> buf[j] == old(buf[j - 1])
    {
      buf[i] := buf[i - 1];
      i := i - 1;
    }
    ShiftedRight(old(buf[..]), buf[..], pos, len);
  }

  method SendBacks(out: seq<Byte>, n: nat) returns (out': seq<Byte>)
    ensures out' == out + Backs(n)
  {
    out' := out;
    for i := 0 to n
      invariant out' == out + Backs(i)
    {
      out' := out' + [BS];
    }
  }

  /** Folding one key into what remains to be edited and echoed. */
  lemma OneKey(z: Zipper, key: Key, rest: seq<Key>, maxLen: nat)
    requires maxLen >= 1
    ensures Edit(z, [key] + rest, maxLen) == Edit(Apply(z, key, maxLen), rest, maxLen)
    ensures EchoAll(z, [key] + rest, maxLen) == Echo(z, key, maxLen) + EchoAll(Apply(z, key, maxLen), rest, maxLen)
  {
    assert ([key] + rest)[1..] == rest;
  }

  /** buf holds the zipper: len characters, the cursor after the first pos of them. */
  ghost predicate Holds(buf: array<Byte>, pos: nat, len: nat, z: Zipper)
    reads buf
  {
    pos == |z.left| && len == Size(z) && len <= buf.Length && buf[..len] == z.left + z.right
  }

  lemma AppendTwice(a: seq<Byte>, b: seq<Byte>, c: seq<Byte>)
    ensures a + b + c == a + (b + c)
  {
  }

  /** Removes buf[pos - 1] (Backspace) or buf[pos] (Delete, moved one to the right), redraws the tail. */
  method RemoveAt(buf: array<Byte>, at: nat, len: nat, out: seq<Byte>) returns (out': seq<Byte>)
    requires at < len <= buf.Length
    modifies buf
    ensures buf[..len - 1] == old(buf[..at]) + old(buf[at + 1..len]) && buf[len - 1..] == old(buf[len - 1..])
    ensures out' == out + ERASE_LINE + Redraw(old(buf[at + 1..len]))
  {
    ShiftLeft(buf, at, len);
    assert buf[..len - 1] == old(buf[..at]) + old(buf[at + 1..len]);
    out' := out + ERASE_LINE + buf[at..len - 1];
    assert buf[at..len - 1] == old(buf[at + 1..len]);
    out' := SendBacks(out', len - 1 - at);
    assert out' == out + ERASE_LINE + Redraw(old(buf[at + 1..len]));
  }

  method InsertAt(buf: array<Byte>, pos: nat, len: nat, ch: Byte, out: seq<Byte>) returns (out': seq<Byte>)
    requires pos <= len < buf.Length
    modifies buf
    ensures buf[..len + 1] == old(buf[..pos]) + [ch] + old(buf[pos..len]) && buf[len + 1..] == old(buf[len + 1..])
    ensures out' == out + ([ch] + Redraw(old(buf[pos..len])))
  {
    ShiftRight(buf, pos, len);
    buf[pos] := ch;
    assert buf[..len + 1] == old(buf[..pos]) + [ch] + old(buf[pos..len]);
    out' := out + buf[pos..len + 1];
    assert buf[pos..len + 1] == [ch] + old(buf[pos..len]);
    out' := SendBacks(out', len - pos);
    assert out' == out + ([ch] + Redraw(old(buf[pos..len])));
  }

  method HandleBackspace(buf: array<Byte>, pos: nat, len: nat, out: seq<Byte>, ghost z: Zipper)
    returns (pos': nat, len': nat, out': seq<Byte>)
    requires Holds(buf, pos, len, z)
    modifies buf
    ensures Holds(buf, pos', len', Apply(z, Backspace, 1)) && len' <= len
    ensures out' == out + Echo(z, Backspace, 1)
    ensures buf[len..] == old(buf[len..])
  {
    pos', len', out' := pos, len, out;
    if pos > 0 {
      ghost var text := buf[..len];
      assert text[..pos - 1] == z.left[..pos - 1] && text[pos..] == z.right;
      out' := RemoveAt(buf, pos - 1, len, out + [BS]);
      pos', len' := pos - 1, len - 1;
      assert buf[len..] == buf[len - 1..][1..];
      AppendTwice(out, [BS], ERASE_LINE);
      AppendTwice(out, [BS] + ERASE_LINE, Redraw(z.right));
    }
  }

  method HandleDelete(buf: array<Byte>, pos: nat, len: nat, out: seq<Byte>, ghost z: Zipper)
    returns (len': nat, out': seq<Byte>)
    requires Holds(buf, pos, len, z)
    modifies buf
    ensures Holds(buf, pos, len', Apply(z, Delete, 1)) && len' <= len
    ensures out' == out + Echo(z, Delete, 1)
    ensures buf[len..] == old(buf[len..])
  {
    len', out' := len, out;
    if pos < len {
      ghost var text := buf[..len];
      assert buf[..pos] == text[..pos] == z.left;
      assert buf[pos + 1..len] == text[pos + 1..] == z.right[1..];
      out' := RemoveAt(buf, pos, len, out);
      len' := len - 1;
      assert buf[len..] == buf[len - 1..][1..];
      AppendTwice(out, ERASE_LINE, Redraw(z.right[1..]));
    }
  }

  method HandleChar(buf: array<Byte>, pos: nat, len: nat, ch: Byte, maxLen: nat, out: seq<Byte>, ghost z: Zipper)
    returns (pos': nat, len': nat, out': seq<Byte>)
    requires 1 <= maxLen <= buf.Length && len <= maxLen - 1 && Holds(buf, pos, len, z)
    modifies buf
    ensures Holds(buf, pos', len', Apply(z, Char(ch), maxLen)) && len' <= maxLen - 1
    ensures out' == out + Echo(z, Char(ch), maxLen)
    ensures buf[maxLen..] == old(buf[maxLen..])
  {
    pos', len', out' := pos, len, out;
    if len < maxLen - 1 {
      ghost var text := buf[..len];
      assert text[..pos] == z.left && text[pos..] == z.right;
      out' := InsertAt(buf, pos, len, ch, out);
      pos', len' := pos + 1, len + 1;
      assert buf[maxLen..] == buf[len + 1..][maxLen - len - 1..];
    }
  }

  /** One decoded key: the branches of fetch_input. */
  method HandleKey(buf: array<Byte>, pos: nat, len: nat, key: Key, maxLen: nat, out: seq<Byte>, ghost z: Zipper)
    returns (pos': nat, len': nat, out': seq<Byte>)
    requires 1 <= maxLen <= buf.Length && len <= maxLen - 1 && Holds(buf, pos, len, z)
    modifies buf
    ensures Holds(buf, pos', len', Apply(z, key, maxLen)) && len' <= maxLen - 1
    ensures out' == out + Echo(z, key, maxLen)
    ensures buf[maxLen..] == old(buf[maxLen..])
  {
    pos', len', out' := pos, len, out;
    match key {
      case Backspace =>
        pos', len', out' := HandleBackspace(buf, pos, len, out, z);
        assert buf[maxLen..] == buf[len..][maxLen - len..];
      case Left =>
        if pos > 0 {
          pos', out' := pos - 1, out + [BS];
        }
      case Right =>
        if pos < len {
          pos', out' := pos + 1, out + CURSOR_RIGHT;
        }
      case Delete =>
        len', out' := HandleDelete(buf, pos, len, out, z);
        assert buf[maxLen..] == buf[len..][maxLen - len..];
      case Char(ch) =>
        pos', len', out' := HandleChar(buf, pos, len, ch, maxLen, out, z);
      case Enter =>
      case Ignored =>
    }
  }

  /** What has been edited and echoed so far, continued with the keys from position `at` on, gives the whole. */
  ghost predicate Remains(input: seq<Byte>, at: nat, z: Zipper, out: seq<Byte>, maxLen: nat)
    requires maxLen >= 1
  {
    var all, rest := Decode(input, 0), Decode(input, at);
    && rest.entered == all.entered
    && Edit(z, rest.keys, maxLen) == Edit(EMPTY, all.keys, maxLen)
    && out + EchoAll(z, rest.keys, maxLen) == EchoAll(EMPTY, all.keys, maxLen)
  }

  lemma KeyTaken(input: seq<Byte>, at: nat, z: Zipper, out: seq<Byte>, maxLen: nat)
    requires maxLen >= 1 && Remains(input, at, z, out, maxLen)
    requires NextKey(input, at).Some? && NextKey(input, at).value.0 != Enter
    ensures var (key, after) := NextKey(input, at).value;
            Remains(input, after, Apply(z, key, maxLen), out + Echo(z, key, maxLen), maxLen)
  {
    var (key, after) := NextKey(input, at).value;
    var rest := Decode(input, after).keys;
    assert Decode(input, at).keys == [key] + rest;
    OneKey(z, key, rest, maxLen);
    AppendTwice(out, Echo(z, key, maxLen), EchoAll(Apply(z, key, maxLen), rest, maxLen));
  }

  /** fetch_input on the bytes that will arrive; it returns without Enter when they run out first. */
  method FetchInput(buf: array<Byte>, maxLen: nat, input: seq<Byte>) returns (entered: bool, len: nat, out: seq<Byte>)
    requires 1 <= maxLen <= buf.Length
    modifies buf
    ensures var d := Decode(input, 0);
            var z := Edit(EMPTY, d.keys, maxLen);
            && entered == d.entered
            && len == Size(z) <= maxLen - 1
            && buf[..len] == z.left + z.right
            && (entered ==> buf[len] == 0)
            && out == EchoAll(EMPTY, d.keys, maxLen) + if entered then [0x0D, 0x0A] else []
    ensures buf[maxLen..] == old(buf[maxLen..])
  {
    var pos, at := 0, 0;
    len, out := 0, [];
    ghost var z := EMPTY;
    assert [] + EchoAll(EMPTY, Decode(input, 0).keys, maxLen) == EchoAll(EMPTY, Decode(input, 0).keys, maxLen);
    while true
      invariant at <= |input| && len <= maxLen - 1 && Holds(buf, pos, len, z)
      invariant Remains(input, at, z, out, maxLen)
      invariant buf[maxLen..] == old(buf[maxLen..])
      decreases |input| - at
    {
      var next := NextKey(input, at);
      if next.None? {
        entered := false;
        assert out + [] == out;
        return;
      }
      var (key, after) := next.value;
      if key == Enter {
        assert out + [] == out;
        entered, out := true, out + [CR, LF];
        buf[len] := NUL;
        return;
      }
      KeyTaken(input, at, z, out, maxLen);
      pos, len, out := HandleKey(buf, pos, len, key, maxLen, out, z);
      z := Apply(z, key, maxLen);
      at := after;
    }
  }
}
