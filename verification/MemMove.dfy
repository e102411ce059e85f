/** memmove of kernel/lib/string.c over an array of bytes. */
module MemMove {
  import opened Arithmetic

  type Byte = x: int | 0 <= x < 256

  /** What section 7.24.2.2 of ISO/IEC 9899:2011 asks for: as if through a temporary copy. */
  ghost predicate Copied(m: seq<Byte>, m': seq<Byte>, dest: nat, src: nat, n: nat)
    requires dest + n <= |m| && src + n <= |m|
  {
    var copied := |m'| == |m| && forall x :: 0 <= x < |m| ==> m'[x] == FromRange(m, x, dest, dest + n, dest - src);
    copied
  }

  /** The byte d below x for x in [lo, hi), the byte at x otherwise. */
  function FromRange(m: seq<Byte>, x: int, lo: int, hi: int, d: int): Byte
    requires 0 <= x < |m| && (lo <= x < hi ==> 0 <= x - d < |m|)
  {
    if lo <= x < hi then m[x - d] else m[x]
  }

  /** The destination starts inside the source. */
  predicate Upward(dest: nat, src: nat, n: nat) { src < dest < src + n }

  /** The caller's condition: the chunks of an upward move come out even. */
  predicate Even(dest: nat, src: nat, n: nat) { !Upward(dest, src, n) || n % (dest - src) == 0 }

  /** Where the last copy of an uneven move goes: r = n % d bytes, d - r bytes too low. */
  ghost predicate Uneven(m: seq<Byte>, m': seq<Byte>, dest: nat, src: nat, n: nat)
    requires dest + n <= |m| && Upward(dest, src, n)
  {
    var d := dest - src;
    var r := n % d;
    var uneven := && |m'| == |m| && r <= dest && d - r <= src
                  && forall x :: 0 <= x < |m| ==>
                                   m'[x] == if dest + r <= x < dest + n then FromRange(m, x, dest + r, dest + n, d)
                                            else FromRange(m, x, dest - (d - r), dest - (d - r) + r, d);
    uneven
  }

  /** __rep_movsb, byte by byte from the lowest. */
  method RepMovsb(a: array<Byte>, dest: nat, src: nat, n: nat)
    requires dest + n <= a.Length && src + n <= a.Length && (dest <= src || src + n <= dest)
    modifies a
    ensures Copied(old(a[..]), a[..], dest, src, n)
  {
    ghost var m := a[..];
    var i := 0;
    while i < n
      invariant 0 <= i <= n && Copied(m, a[..], dest, src, i)
    {
      ghost var s := a[..];
      a[dest + i] := a[src + i];
      assert a[..] == s[dest + i := s[src + i]];
      CopiedMore(m, s, dest, src, i, n);
      i := i + 1;
    }
  }

  /** The byte to be copied next has not been written over. */
  lemma CopiedMore(m: seq<Byte>, s: seq<Byte>, dest: nat, src: nat, i: nat, n: nat)
    requires i < n && dest + n <= |m| && src + n <= |m| && (dest <= src || src + n <= dest)
    requires Copied(m, s, dest, src, i)
    ensures Copied(m, s[dest + i := s[src + i]], dest, src, i + 1)
  {
    assert s[src + i] == m[src + i];
  }

  /** memmove; its last copy reads below the source when the move is uneven, so that memory must be there. */
  method Memmove(a: array<Byte>, dest0: nat, src0: nat, n0: nat)
    requires dest0 + n0 <= a.Length && src0 + n0 <= a.Length
    requires !Even(dest0, src0, n0) ==> src0 >= (dest0 - src0) - n0 % (dest0 - src0)
    modifies a
    ensures Moves(old(a[..]), a[..], dest0, src0, n0)
  {
    if n0 == 0 || dest0 == src0 {
      return;
    }
    if src0 < dest0 < src0 + n0 {
      MoveUp(a, dest0, src0, n0);
    } else {
      RepMovsb(a, dest0, src0, n0);
    }
  }

  /** The branch of memmove that copies chunks of the distance, the highest first. */
  method MoveUp(a: array<Byte>, dest0: nat, src0: nat, n0: nat)
    requires dest0 + n0 <= a.Length && Upward(dest0, src0, n0)
    requires !Even(dest0, src0, n0) ==> src0 >= (dest0 - src0) - n0 % (dest0 - src0)
    modifies a
    ensures Moves(old(a[..]), a[..], dest0, src0, n0)
  {
    var tail := dest0 - src0;
    var n, dest, src := n0, dest0 + n0 - tail, src0 + n0 - tail;
    ghost var m := a[..];
    while true
      invariant tail < n <= n0 && dest == dest0 + n - tail && src == src0 + n - tail && n % tail == n0 % tail
      invariant Shifted(m, a[..], dest0 + n, dest0 + n0, tail)
      decreases n
    {
      ghost var before := a[..];
      RepMovsb(a, dest, src, tail);
      ChunkDone(m, before, a[..], dest, dest0 + n0, tail);
      ModStep(n, tail);
      dest, src, n := dest - tail, src - tail, n - tail;
      if !(n > tail) {
        break;
      }
    }
    LastChunk(n, tail);
    if n != 0 {
      ghost var before := a[..];
      RepMovsb(a, dest, src, n);
      LastDone(m, before, a[..], dest0, src0, n0, n);
    }
  }

  /** The bytes from lo to hi have moved up by d, the others are as they were. */
  ghost predicate Shifted(m: seq<Byte>, m': seq<Byte>, lo: int, hi: int, d: int) {
    var shifted := && |m'| == |m| && 0 <= d <= lo && hi <= |m|
                   && forall x :: 0 <= x < |m| ==> m'[x] == FromRange(m, x, lo, hi, d);
    shifted
  }

  /** Each chunk is copied from bytes that no earlier chunk has touched. */
  lemma ChunkDone(m: seq<Byte>, s: seq<Byte>, s': seq<Byte>, dest: nat, hi: nat, d: nat)
    requires 0 < d <= dest && dest + d <= hi <= |m|
    requires Shifted(m, s, dest + d, hi, d) && Copied(s, s', dest, dest - d, d)
    ensures Shifted(m, s', dest, hi, d)
  {
    forall x | 0 <= x < |m| ensures s'[x] == FromRange(m, x, dest, hi, d) {
      assert dest <= x < dest + d ==> s[x - d] == m[x - d];
    }
  }

  lemma LastDone(m: seq<Byte>, s: seq<Byte>, s': seq<Byte>, dest: nat, src: nat, n: nat, r: nat)
    requires dest + n <= |m| && Upward(dest, src, n)
    requires var d := dest - src;
             && 0 < r <= d && n % d == (if r == d then 0 else r) && d - r <= src
             && Shifted(m, s, dest + r, dest + n, d) && Copied(s, s', dest + r - d, src + r - d, r)
    ensures if n % (dest - src) == 0 then Copied(m, s', dest, src, n) else Uneven(m, s', dest, src, n)
  {
    var d := dest - src;
    var lo := dest + r - d;
    forall x | 0 <= x < |m| ensures s'[x] == if dest + r <= x < dest + n then m[x - d] else FromRange(m, x, lo, lo + r, d) {
      assert lo <= x < lo + r ==> s[x - d] == m[x - d];
    }
  }

  /** The move is right for every content of memory exactly when it is even: the byte before the last whole chunk is
      never written otherwise. */
  lemma RightIffEven(length: nat, dest: nat, src: nat, n: nat)
    requires dest + n <= length && src + n <= length && Upward(dest, src, n)
    requires n % (dest - src) != 0 ==> src >= (dest - src) - n % (dest - src)
    ensures Even(dest, src, n) <==>
            forall m: seq<Byte>, m': seq<Byte> :: |m| == length && Moves(m, m', dest, src, n) ==> Copied(m, m', dest, src, n)
  {
    var d := dest - src;
    var r := n % d;
    if r != 0 {
      var m: seq<Byte> := seq(length, x => if x == dest + r - 1 then 1 else 0);
      var m': seq<Byte> := seq(length, x requires 0 <= x < length =>
        if dest + r <= x < dest + n then m[x - d] else FromRange(m, x, dest - (d - r), dest - (d - r) + r, d));
      assert Uneven(m, m', dest, src, n) && Moves(m, m', dest, src, n);
      assert m'[dest + r - 1] == 1 && m[src + (r - 1)] == 0;
      assert !Copied(m, m', dest, src, n);
    }
  }

  /** What Memmove does. */
  ghost predicate Moves(m: seq<Byte>, m': seq<Byte>, dest: nat, src: nat, n: nat)
    requires dest + n <= |m| && src + n <= |m|
  {
    if Even(dest, src, n) then Copied(m, m', dest, src, n) else Uneven(m, m', dest, src, n)
  }

  lemma ModStep(n: nat, d: nat)
    requires 0 < d <= n
    ensures (n - d) % d == n % d
  {
    var q, r := n / d, n % d;
    assert n == d * q + r;
    assert n - d == d * (q - 1) + r;
    Residue(d, q - 1, r);
  }

  lemma LastChunk(n: nat, d: nat)
    requires 0 < n <= d
    ensures n % d == if n == d then 0 else n
  {
  }
}
