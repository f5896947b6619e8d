/** What the hash of a tool result tells apart: texts that differ in one character
    never share one. */
module HashLaws {
  import opened Messages
  import opened Dedup

  const MODULUS: nat := 0x1_0000_0000
  const PRIME: nat := 16777619

  /** What undoes a multiplication by the prime. */
  const INVERSE: nat := 899433627

  // ---- Exclusive or ----

  lemma {:induction false} XorBound(a: nat, b: nat, n: nat)
    requires a < Power2(n) && b < Power2(n)
    ensures Xor(a, b) < Power2(n)
    decreases n
  {
    if n > 0 && a > 0 {
      XorBound(a / 2, b / 2, n - 1);
    }
  }

  function Power2(n: nat): nat { if n == 0 then 1 else 2 * Power2(n - 1) }

  lemma WordSize()
    ensures Power2(32) == MODULUS
  {
    assert Power2(8) == 256;
    assert Power2(16) == 256 * Power2(8) by { assert Power2(12) == 16 * Power2(8); }
    assert Power2(24) == 256 * Power2(16) by { assert Power2(20) == 16 * Power2(16); }
    assert Power2(32) == 256 * Power2(24) by { assert Power2(28) == 16 * Power2(24); }
  }

  /** Equal results of exclusive or with the same number come from equal numbers. */
  lemma {:induction false} XorLeftInjective(a: nat, b: nat, c: nat)
    requires Xor(a, c) == Xor(b, c)
    ensures a == b
    decreases a + b
  {
    if a == 0 && b == 0 {
    } else {
      XorHalves(a, c);
      XorHalves(b, c);
      XorLeftInjective(a / 2, b / 2, c / 2);
    }
  }

  lemma {:induction false} XorRightInjective(a: nat, c: nat, d: nat)
    requires Xor(a, c) == Xor(a, d)
    ensures c == d
    decreases a
  {
    if a > 0 {
      XorRightInjective(a / 2, c / 2, d / 2);
    }
  }

  /** Bit by bit, for 0 too. */
  lemma {:induction false} XorHalves(a: nat, b: nat)
    ensures Xor(a, b) % 2 == (if a % 2 == b % 2 then 0 else 1)
    ensures Xor(a, b) / 2 == Xor(a / 2, b / 2)
  {
  }

  // ---- One step ----

  lemma InverseOfPrime()
    ensures PRIME * INVERSE == 3513497 * MODULUS + 1
  {
  }

  lemma Undo(x: nat)
    requires x < MODULUS
    ensures (((x * PRIME) % MODULUS) * INVERSE) % MODULUS == x
  {
    var r, q := (x * PRIME) % MODULUS, (x * PRIME) / MODULUS;
    InverseOfPrime();
    assert x * PRIME == q * MODULUS + r;
    assert r * INVERSE == (x * PRIME) * INVERSE - (q * MODULUS) * INVERSE;
    var k := x * 3513497 - q * INVERSE;
    assert r * INVERSE == k * MODULUS + x;
    RemainderIs(k, x);
  }

  lemma RemainderIs(k: int, x: nat)
    requires x < MODULUS
    ensures (k * MODULUS + x) % MODULUS == x
  {
  }

  lemma StepInjective(g: nat, h: nat, c: char)
    requires g < MODULUS && h < MODULUS && FnvStep(g, c) == FnvStep(h, c)
    ensures g == h
  {
    CharXor(g, c);
    CharXor(h, c);
    Undo(Xor(g, c as int));
    Undo(Xor(h, c as int));
    XorLeftInjective(g, h, c as int);
  }

  lemma StepSeparates(h: nat, c: char, d: char)
    requires h < MODULUS && FnvStep(h, c) == FnvStep(h, d)
    ensures c == d
  {
    CharXor(h, c);
    CharXor(h, d);
    Undo(Xor(h, c as int));
    Undo(Xor(h, d as int));
    XorRightInjective(h, c as int, d as int);
  }

  lemma CharXor(h: nat, c: char)
    requires h < MODULUS
    ensures Xor(h, c as int) < MODULUS
  {
    WordSize();
    XorBound(h, c as int, 32);
  }

  lemma FnvBound(s: string)
    ensures Fnv(s) < MODULUS
  {
  }

  lemma FnvSnoc(s: string, c: char)
    ensures Fnv(s + [c]) == FnvStep(Fnv(s), c)
  {
    assert (s + [c])[..|s|] == s;
  }

  // ---- Texts ----

  lemma {:induction false} SameTail(a: string, b: string, t: string)
    requires Fnv(a + t) == Fnv(b + t)
    ensures Fnv(a) == Fnv(b)
    decreases |t|
  {
    if t == "" {
      assert a + t == a && b + t == b;
    } else {
      var init, c := t[..|t| - 1], t[|t| - 1];
      assert a + t == (a + init) + [c] && b + t == (b + init) + [c];
      FnvSnoc(a + init, c);
      FnvSnoc(b + init, c);
      FnvBound(a + init);
      FnvBound(b + init);
      StepInjective(Fnv(a + init), Fnv(b + init), c);
      SameTail(a, b, init);
    }
  }

  /** Texts that differ in exactly one character never share a hash. */
  lemma OneCharacterSeparates(s: string, c: char, d: char, t: string)
    requires c != d
    ensures Fnv(s + [c] + t) != Fnv(s + [d] + t)
  {
    if Fnv(s + [c] + t) == Fnv(s + [d] + t) {
      SameTail(s + [c], s + [d], t);
      FnvSnoc(s, c);
      FnvSnoc(s, d);
      FnvBound(s);
      StepSeparates(Fnv(s), c, d);
      assert false;
    }
  }

  /** The published 32-bit FNV-1a values of "" and "a" fix the offset basis and the prime. */
  lemma KnownHashes()
    ensures Fnv("") == 0x811C9DC5 && Fnv("a") == 0xE40C292C
  {
    EmptyText();
    FnvSnoc("", 'a');
    assert "" + ['a'] == "a";
    FirstStep(Fnv(""), 'a');
  }

  lemma EmptyText()
    ensures Fnv("") == 0x811C9DC5
  {
  }

  lemma FirstStep(h: nat, c: char)
    requires h == 0x811C9DC5 && c == 'a'
    ensures FnvStep(h, c) == 0xE40C292C
  {
    XorOfA();
    Product(Xor(h, c as int));
  }

  lemma Product(x: nat)
    requires x == 2166136228
    ensures (x * 16777619) % 0x1_0000_0000 == 0xE40C292C
  {
  }

  lemma XorOfA()
    ensures Xor(2166136261, 97) == 2166136228
  {
    XorZero(16922939);
    XorStep(33845879, 1, 16922939, 33845878);
    XorStep(67691758, 3, 33845878, 67691757);
    XorStep(135383516, 6, 67691757, 135383514);
    XorStep(270767032, 12, 135383514, 270767028);
    XorStep(541534065, 24, 270767028, 541534057);
    XorStep(1083068130, 48, 541534057, 1083068114);
    XorStep(2166136261, 97, 1083068114, 2166136228);
  }

  lemma XorStep(a: nat, b: nat, half: nat, r: nat)
    requires Xor(a / 2, b / 2) == half && r == 2 * half + if a % 2 == b % 2 then 0 else 1
    ensures Xor(a, b) == r
  {
    XorHalves(a, b);
  }

  lemma {:induction false} XorZero(a: nat)
    ensures Xor(a, 0) == a
  {
    if a > 0 {
      XorZero(a / 2);
    }
  }

  /** The text of a result is the texts of its parts one after the other. */
  lemma {:induction false} TextOfConcat(a: seq<ResultPart>, b: seq<ResultPart>)
    ensures TextOf(a + b) == TextOf(a) + TextOf(b)
    decreases |b|
  {
    if b == [] {
      assert a + b == a;
    } else {
      TextOfConcat(a, b[..|b| - 1]);
      assert (a + b)[..|a + b| - 1] == a + b[..|b| - 1];
    }
  }

  // ---- What is kept ----

  ghost predicate OneCharacterApart(a: string, b: string) {
    |a| == |b| && exists i :: DiffersAt(a, b, i)
  }

  ghost predicate DiffersAt(a: string, b: string, i: int) {
    0 <= i < |a| == |b| && a[i] != b[i] && a[..i] == b[..i] && a[i + 1..] == b[i + 1..]
  }

  lemma ApartHashes(a: string, b: string)
    requires OneCharacterApart(a, b)
    ensures Fnv(a) != Fnv(b)
  {
    var i :| DiffersAt(a, b, i);
    assert a == a[..i] + [a[i]] + a[i + 1..] && b == b[..i] + [b[i]] + b[i + 1..];
    OneCharacterSeparates(a[..i], a[i], b[i], a[i + 1..]);
  }

  /** Results whose texts differ in one character each are all left as they are. */
  lemma ApartIsKept(blocks: seq<Block>, out: seq<Block>)
    requires IsDeduped(blocks, out)
    requires forall i, j :: 0 <= i < j < |blocks| && Eligible(blocks[i]) && Eligible(blocks[j]) ==>
                              OneCharacterApart(TextOf(blocks[i].content), TextOf(blocks[j].content))
    ensures out == blocks
  {
    forall k | 0 <= k < |blocks|
      ensures out[k] == blocks[k]
    {
      if out[k] != blocks[k] {
        var m := ReferencesAreSound(blocks, out, k);
        ApartHashes(TextOf(blocks[m].content), TextOf(blocks[k].content));
        assert false;
      }
    }
  }

  function TwoTexts(a: string, x: string, b: string, y: string): seq<Block> {
    [ToolResult(a, [TextPart(x)], false), ToolResult(b, [TextPart(y)], false)]
  }

  /** Two results that differ in one character of their text are both kept. */
  lemma TwoResultsAreKept(a: string, b: string, s: string, c: char, d: char, t: string, out: seq<Block>)
    requires c != d
    requires IsDeduped(TwoTexts(a, s + [c] + t, b, s + [d] + t), out)
    ensures out == TwoTexts(a, s + [c] + t, b, s + [d] + t)
  {
    var x, y := s + [c] + t, s + [d] + t;
    OneText([TextPart(x)]);
    OneText([TextPart(y)]);
    assert [TextPart(x)][0] == TextPart(TextOf([TextPart(x)]));
    assert [TextPart(y)][0] == TextPart(TextOf([TextPart(y)]));
    assert DiffersAt(x, y, |s|);
    ApartIsKept(TwoTexts(a, x, b, y), out);
  }
}
