/** `input::keyboard`: two snapshots of the 256 virtual keys, and the
    character typed in the latest update, looked up in a lower-case and an
    upper-case table. */
module Keyboards {

  const KEY_COUNT: nat := 256

  /** The shift key's virtual-key code. */
  const SHIFT: nat := 16

  /** The "no character" entry. */
  const NONE: char := 0 as char

  datatype Keyboard = Keyboard(cur: seq<bool>, prev: seq<bool>,
                               lower: seq<char>, upper: seq<char>, typedKey: char)

  predicate Valid(k: Keyboard)
  {
    |k.cur| == KEY_COUNT && |k.prev| == KEY_COUNT && |k.lower| == KEY_COUNT && |k.upper| == KEY_COUNT
  }

  /** `memcpy(table + at, s, |s|)`. */
  function Copy(table: seq<char>, at: nat, s: seq<char>): (r: seq<char>)
    requires at + |s| <= |table|
    ensures |r| == |table|
    ensures forall i :: 0 <= i < |table| ==> r[i] == if at <= i < at + |s| then s[i - at] else table[i]
  {
    table[..at] + s + table[at + |s|..]
  }

  function Blank(): (t: seq<char>)
    ensures |t| == KEY_COUNT && forall i :: 0 <= i < KEY_COUNT ==> t[i] == NONE
  {
    seq(KEY_COUNT, i => NONE)
  }

  /** The numeric keypad block and the two keys after it, shared by both
      tables. */
  function Keypad(t: seq<char>): (r: seq<char>)
    requires |t| == KEY_COUNT
    ensures |r| == KEY_COUNT
  {
    Copy(t, 96, "0123456789*+'")[109 := '-'][111 := '/']
  }

  /** The blocks in which the two tables differ: what the digit row, the
      letter keys and the two punctuation blocks type. */
  datatype Blocks = Blocks(digitRow: seq<char>, letters: seq<char>, oem1: seq<char>, oem2: seq<char>)

  predicate Sized(b: Blocks)
  {
    |b.digitRow| == 10 && |b.letters| == 26 && |b.oem1| == 7 && |b.oem2| == 4
  }

  /** Without shift. */
  const LOWER: Blocks := Blocks("0123456789", "abcdefghijklmnopqrstuvwxyz", ";=,-./`", "[\\]'")

  /** With shift. */
  const UPPER: Blocks := Blocks(")!@#$%^&*(", "ABCDEFGHIJKLMNOPQRSTUVWXYZ", ":+<_>?~", "{|}\"")

  /** A table as `init` builds it: tab and space, the digit row, the
      letters, the two punctuation blocks, then the keypad. */
  function Fill(b: Blocks): (t: seq<char>)
    requires Sized(b)
    ensures |t| == KEY_COUNT
  {
    Keypad(Copy(Copy(Copy(Copy(Blank()[9 := '\t'][32 := ' '], 48, b.digitRow), 65, b.letters), 186, b.oem1), 219, b.oem2))
  }

  /** `keyboard::init`: nothing held, nothing typed, both tables filled. */
  function Init(): (k: Keyboard)
    ensures Valid(k) && k.typedKey == NONE
    ensures forall i :: 0 <= i < KEY_COUNT ==> !k.cur[i] && !k.prev[i]
  {
    Keyboard(seq(KEY_COUNT, i => false), seq(KEY_COUNT, i => false), Fill(LOWER), Fill(UPPER), NONE)
  }

  /** Where each block of a table lands. Keys below the space bar other than
      tab (the mouse buttons, shift and the other modifiers) type nothing. */
  lemma FillLayout(b: Blocks, i: nat)
    requires Sized(b) && i < KEY_COUNT
    ensures var t := Fill(b);
      && (i < 32 && i != 9 ==> t[i] == NONE)
      && (i == 9 ==> t[i] == '\t')
      && (i == 32 ==> t[i] == ' ')
      && (48 <= i < 58 ==> t[i] == b.digitRow[i - 48])
      && (65 <= i < 91 ==> t[i] == b.letters[i - 65])
      && (96 <= i < 109 ==> t[i] == "0123456789*+'"[i - 96])
      && (i == 109 ==> t[i] == '-')
      && (i == 111 ==> t[i] == '/')
      && (186 <= i < 193 ==> t[i] == b.oem1[i - 186])
      && (219 <= i < 223 ==> t[i] == b.oem2[i - 219])
  {
  }

  /** Letter keys type their letter, lower case without shift and upper case
      with it; digit keys type the digit without shift. */
  lemma Letters(i: nat)
    requires 65 <= i < 91
    ensures Fill(LOWER)[i] == (i + 32) as char && Fill(UPPER)[i] == i as char
  {
    LowerLetters(i);
    UpperLetters(i);
  }

  lemma LowerLetters(i: nat)
    requires 65 <= i < 91
    ensures Fill(LOWER)[i] == (i + 32) as char
  {
    FillLayout(LOWER, i);
    Alphabet(i - 65);
  }

  /** The lower-case alphabet is 32 code points above the upper-case one. */
  lemma Alphabet(j: nat)
    requires j < 26
    ensures "abcdefghijklmnopqrstuvwxyz"[j] == (j + 97) as char
    ensures "ABCDEFGHIJKLMNOPQRSTUVWXYZ"[j] == (j + 65) as char
  {
  }

  lemma UpperLetters(i: nat)
    requires 65 <= i < 91
    ensures Fill(UPPER)[i] == i as char
  {
    FillLayout(UPPER, i);
    Alphabet(i - 65);
  }

  lemma Digits(i: nat)
    requires 48 <= i < 58
    ensures Fill(LOWER)[i] == i as char
  {
    FillLayout(LOWER, i);
  }

  /** The newly pressed key, highest first, whose table entry is not empty:
      its character, or nothing. A reference scan from the top down. */
  function Typed(table: seq<char>, prev: seq<bool>, cur: seq<bool>, n: nat): (c: char)
    requires n <= |table| && n <= |prev| && n <= |cur|
    decreases n
  {
    if n == 0 then NONE
    else if table[n - 1] != NONE && !prev[n - 1] && cur[n - 1] then table[n - 1]
    else Typed(table, prev, cur, n - 1)
  }

  /** What `Typed` picks: nothing if no newly pressed key below `n` has an
      entry; otherwise the entry of the highest such key. */
  lemma {:induction false} TypedIsHighest(table: seq<char>, prev: seq<bool>, cur: seq<bool>, n: nat)
    requires n <= |table| && n <= |prev| && n <= |cur|
    ensures Typed(table, prev, cur, n) == NONE <==>
      forall i :: 0 <= i < n ==> table[i] == NONE || prev[i] || !cur[i]
    ensures Typed(table, prev, cur, n) != NONE ==>
      exists i :: 0 <= i < n && table[i] != NONE && !prev[i] && cur[i]
        && Typed(table, prev, cur, n) == table[i]
        && forall j :: i < j < n ==> table[j] == NONE || prev[j] || !cur[j]
    decreases n
  {
    if n > 0 {
      TypedIsHighest(table, prev, cur, n - 1);
      if !(table[n - 1] != NONE && !prev[n - 1] && cur[n - 1]) && Typed(table, prev, cur, n) != NONE {
        var i :| 0 <= i < n - 1 && table[i] != NONE && !prev[i] && cur[i]
          && Typed(table, prev, cur, n - 1) == table[i]
          && forall j :: i < j < n - 1 ==> table[j] == NONE || prev[j] || !cur[j];
        assert forall j :: i < j < n ==> table[j] == NONE || prev[j] || !cur[j];
      }
    }
  }

  /** `keyboard::update` with the state of every key read at one moment.
      The old state becomes the previous one and the snapshot the current
      one; the typed character comes from the upper table when shift is
      down in the snapshot and from the lower one otherwise, and is that of
      the highest-numbered newly pressed key with an entry. */
  method Update(k: Keyboard, snapshot: seq<bool>) returns (k2: Keyboard)
    requires Valid(k) && |snapshot| == KEY_COUNT
    ensures Valid(k2)
    ensures k2.prev == k.cur && k2.cur == snapshot
    ensures k2.lower == k.lower && k2.upper == k.upper
    ensures k2.typedKey == Typed(if snapshot[SHIFT] then k.upper else k.lower, k.cur, snapshot, KEY_COUNT)
  {
    var prev := k.cur;
    var cur := k.prev;
    var typed := NONE;
    var isUpper := snapshot[SHIFT];
    var i := 0;
    while i < KEY_COUNT
      invariant i <= KEY_COUNT && |cur| == KEY_COUNT
      invariant cur[..i] == snapshot[..i]
      invariant typed == Typed(if isUpper then k.upper else k.lower, prev, snapshot, i)
    {
      cur := cur[i := snapshot[i]];
      if k.upper[i] != NONE && !prev[i] && cur[i] && isUpper {
        typed := k.upper[i];
      } else if k.lower[i] != NONE && !prev[i] && cur[i] && !isUpper {
        typed := k.lower[i];
      }
      assert cur[..i + 1] == cur[..i] + [cur[i]];
      i := i + 1;
    }
    assert cur == cur[..KEY_COUNT];
    k2 := Keyboard(cur, prev, k.lower, k.upper, typed);
  }

  predicate IsKeyDown(k: Keyboard, key: nat)
    requires Valid(k) && key < KEY_COUNT
  {
    k.cur[key]
  }

  predicate IsKeyPressed(k: Keyboard, key: nat)
    requires Valid(k) && key < KEY_COUNT
  {
    k.cur[key] && !k.prev[key]
  }

  predicate IsKeyReleased(k: Keyboard, key: nat)
    requires Valid(k) && key < KEY_COUNT
  {
    !k.cur[key] && k.prev[key]
  }

  /** After an update a key is pressed exactly when it is down now and was
      not before, released exactly when it was down and is not now; the two
      never hold together, and pressed implies down. */
  lemma PressRelease(k: Keyboard, snapshot: seq<bool>, k2: Keyboard, key: nat)
    requires Valid(k) && Valid(k2) && |snapshot| == KEY_COUNT && key < KEY_COUNT
    requires k2.prev == k.cur && k2.cur == snapshot
    ensures IsKeyPressed(k2, key) <==> snapshot[key] && !IsKeyDown(k, key)
    ensures IsKeyReleased(k2, key) <==> !snapshot[key] && IsKeyDown(k, key)
    ensures !(IsKeyPressed(k2, key) && IsKeyReleased(k2, key))
    ensures IsKeyPressed(k2, key) ==> IsKeyDown(k2, key)
  {
  }

  /** Holding a key across two updates types it once: the second update
      sees it already down. */
  lemma HeldKeyTypesOnce(k: Keyboard, snapshot: seq<bool>, key: nat)
    requires Valid(k) && |snapshot| == KEY_COUNT && key < KEY_COUNT
    requires snapshot[key] && forall i :: 0 <= i < KEY_COUNT && i != key ==> !snapshot[i]
    requires !k.cur[key] && k.lower[key] != NONE && k.upper[key] != NONE
    ensures Typed(k.lower, k.cur, snapshot, KEY_COUNT) == k.lower[key]
    ensures Typed(k.lower, snapshot, snapshot, KEY_COUNT) == NONE
  {
    TypedIsHighest(k.lower, k.cur, snapshot, KEY_COUNT);
    TypedIsHighest(k.lower, snapshot, snapshot, KEY_COUNT);
  }
}
