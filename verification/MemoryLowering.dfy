/** The loops that memory intrinsics are lowered to, over one array of bytes. */
module MemoryLowering {

  newtype byte = x: int | 0 <= x < 256

  /** Memory `m` after the bytes at `src` have been copied to `dst`: what
      sections 7.24.2.1 and 7.24.2.2 of ISO/IEC 9899:2011 ask for. */
  ghost function Moved(m: seq<byte>, dst: nat, src: nat, n: nat): (r: seq<byte>)
    requires dst + n <= |m| && src + n <= |m|
    ensures |r| == |m|
  {
    m[..dst] + m[src..src + n] + m[dst + n..]
  }

  /** The destination holds the source bytes, and nothing else changed. */
  lemma MovedParts(m: seq<byte>, dst: nat, src: nat, n: nat)
    requires dst + n <= |m| && src + n <= |m|
    ensures var r := Moved(m, dst, src, n);
      r[dst..dst + n] == m[src..src + n] && r[..dst] == m[..dst] && r[dst + n..] == m[dst + n..]
  {
  }

  lemma MovedAt(m: seq<byte>, dst: nat, src: nat, n: nat, i: nat)
    requires dst + n <= |m| && src + n <= |m| && i < |m|
    ensures Moved(m, dst, src, n)[i] == if dst <= i < dst + n then m[src + (i - dst)] else m[i]
  {
  }

  /** The addresses from `dst` on, once each. */
  ghost function Range(dst: nat, n: nat): (r: seq<nat>) {
    seq(n, i => dst + i)
  }

  lemma RangeMore(dst: nat, n: nat, k: nat)
    ensures Range(dst, n) + Range(dst + n, k) == Range(dst, n + k)
  {
  }

  // memmove

  /** Copying one more byte from the end, if the source starts first. */
  lemma BackwardStep(m: seq<byte>, dst: nat, src: nat, n: nat, i: nat)
    requires dst + n <= |m| && src + n <= |m| && src < dst && i < n
    ensures var r := Moved(m, dst + i + 1, src + i + 1, n - i - 1);
      r[dst + i := r[src + i]] == Moved(m, dst + i, src + i, n - i)
  {
  }

  /** Copying one more byte from the start, if the destination starts first. */
  lemma ForwardStep(m: seq<byte>, dst: nat, src: nat, n: nat, i: nat)
    requires dst + n <= |m| && src + n <= |m| && dst <= src && i < n
    ensures var r := Moved(m, dst, src, i); r[dst + i := r[src + i]] == Moved(m, dst, src, i + 1)
  {
  }

  /** For every length and every overlap. */
  method MemMove(a: array<byte>, dst: nat, src: nat, n: nat)
    requires dst + n <= a.Length && src + n <= a.Length
    modifies a
    ensures a[..] == Moved(old(a[..]), dst, src, n)
  {
    hide Moved;
    ghost var m := a[..];
    MovedNone(m, dst, src);
    MovedNone(m, dst + n, src + n);
    if src < dst {
      if n != 0 {
        var phi, done := n, false;
        while !done
          invariant 0 <= phi <= n && (done <==> phi == 0) && a[..] == Moved(m, dst + phi, src + phi, n - phi)
          decreases phi
        {
          var index := phi - 1;
          BackwardStep(m, dst, src, n, index);
          a[dst + index] := a[src + index];
          phi, done := index, index == 0;
        }
      }
    } else if n != 0 {
      var phi, done := 0, false;
      while !done
        invariant 0 <= phi <= n && (done <==> phi == n) && a[..] == Moved(m, dst, src, phi)
        decreases n - phi
      {
        ForwardStep(m, dst, src, n, phi);
        a[dst + phi] := a[src + phi];
        phi, done := phi + 1, phi + 1 == n;
      }
    }
  }

  lemma MovedNone(m: seq<byte>, dst: nat, src: nat)
    requires dst <= |m| && src <= |m|
    ensures Moved(m, dst, src, 0) == m
  {
  }

  // memcpy

  /** The regions that memcpy is promised for. */
  ghost predicate Apart(dst: nat, src: nat, n: nat) {
    dst == src || dst + n <= src || src + n <= dst
  }

  /** Copying the next `w` bytes after the first `k`. */
  lemma NextPiece(m: seq<byte>, dst: nat, src: nat, n: nat, k: nat, w: nat)
    requires dst + n <= |m| && src + n <= |m| && Apart(dst, src, n) && k + w <= n
    ensures Moved(Moved(m, dst, src, k), dst + k, src + k, w) == Moved(m, dst, src, k + w)
  {
    hide Moved;
    var r := Moved(m, dst, src, k);
    var a, b := Moved(r, dst + k, src + k, w), Moved(m, dst, src, k + w);
    forall j | 0 <= j < |m|
      ensures a[j] == b[j]
    {
      MovedAt(r, dst + k, src + k, w, j);
      MovedAt(m, dst, src, k + w, j);
      MovedAt(m, dst, src, k, j);
      if dst + k <= j < dst + k + w {
        MovedAt(m, dst, src, k, src + k + (j - (dst + k)));
      }
    }
  }

  /** One load of `w` bytes and one store of them. Returns the addresses that
      are written. */
  method CopyWord(a: array<byte>, dst: nat, src: nat, w: nat) returns (ghost writes: seq<nat>)
    requires dst + w <= a.Length && src + w <= a.Length
    modifies a
    ensures a[..] == Moved(old(a[..]), dst, src, w) && writes == Range(dst, w)
  {
    hide Moved;
    ghost var m := a[..];
    var loaded := a[src..src + w];
    writes := [];
    MovedNone(m, dst, src);
    for i := 0 to w
      invariant a[..] == Moved(m, dst, src, i) && writes == Range(dst, i) && loaded == m[src..src + w]
    {
      StoreByte(m, dst, src, w, i);
      a[dst + i] := loaded[i];
      RangeMore(dst, i, 1);
      writes := writes + [dst + i];
    }
  }

  lemma StoreByte(m: seq<byte>, dst: nat, src: nat, w: nat, i: nat)
    requires dst + w <= |m| && src + w <= |m| && i < w
    ensures Moved(m, dst, src, i)[dst + i := m[src..src + w][i]] == Moved(m, dst, src, i + 1)
    ensures Range(dst + i, 1) == [dst + i]
  {
  }

  /** The first `k` of `n` bytes are copied, each once. */
  ghost predicate CopiedTo(m: seq<byte>, a: seq<byte>, dst: nat, src: nat, n: nat, k: nat, writes: seq<nat>) {
    && |a| == |m| && dst + n <= |m| && src + n <= |m| && Apart(dst, src, n) && k <= n
    && a == Moved(m, dst, src, k) && writes == Range(dst, k)
  }

  /** Copies the next `w` bytes. */
  method CopyPiece(a: array<byte>, dst: nat, src: nat, k: nat, w: nat, ghost m: seq<byte>, ghost n: nat, ghost before: seq<nat>)
      returns (ghost writes: seq<nat>)
    requires CopiedTo(m, a[..], dst, src, n, k, before) && k + w <= n
    modifies a
    ensures CopiedTo(m, a[..], dst, src, n, k + w, writes)
  {
    hide Moved, Range;
    NextPiece(m, dst, src, n, k, w);
    RangeMore(dst, k, w);
    ghost var more := CopyWord(a, dst + k, src + k, w);
    writes := before + more;
  }

  lemma NothingYet(m: seq<byte>, dst: nat, src: nat, n: nat)
    requires dst + n <= |m| && src + n <= |m| && Apart(dst, src, n)
    ensures CopiedTo(m, m, dst, src, n, 0, [])
  {
  }

  lemma Words(i: nat, count: nat, w: nat, n: nat)
    requires i < count && count * w <= n
    ensures i * w + w == (i + 1) * w <= n
  {
  }

  /** The loop over words: at least one. */
  method WordLoop(a: array<byte>, dst: nat, src: nat, w: nat, count: nat, ghost n: nat) returns (ghost writes: seq<nat>)
    requires dst + n <= a.Length && src + n <= a.Length && Apart(dst, src, n) && 0 < count && count * w <= n
    modifies a
    ensures CopiedTo(old(a[..]), a[..], dst, src, n, count * w, writes)
  {
    hide CopiedTo, Apart;
    ghost var m := a[..];
    NothingYet(m, dst, src, n);
    writes := [];
    var index, done := 0, false;
    while !done
      invariant 0 <= index <= count && (done <==> index == count)
      invariant CopiedTo(m, a[..], dst, src, n, index * w, writes)
      decreases count - index
    {
      Words(index, count, w, n);
      writes := CopyPiece(a, dst, src, index * w, w, m, n, writes);
      index := index + 1;
      done := !(index < count);
    }
  }

  lemma Division(n: nat, w: nat)
    requires 0 < w
    ensures (n / w) * w == n - n % w && (n / w) * w <= n
  {
  }

  /** Single bytes after the first `copied`: at least one. */
  method ByteLoop(a: array<byte>, dst: nat, src: nat, copied: nat, residual: nat, ghost m: seq<byte>, ghost before: seq<nat>)
      returns (ghost writes: seq<nat>)
    requires CopiedTo(m, a[..], dst, src, copied + residual, copied, before) && 0 < residual
    modifies a
    ensures CopiedTo(m, a[..], dst, src, copied + residual, copied + residual, writes)
  {
    hide CopiedTo;
    writes := before;
    var index, done := 0, false;
    while !done
      invariant 0 <= index <= residual && (done <==> index == residual)
      invariant CopiedTo(m, a[..], dst, src, copied + residual, copied + index, writes)
      decreases residual - index
    {
      writes := CopyPiece(a, dst, src, copied + index, 1, m, copied + residual, writes);
      index := index + 1;
      done := !(index < residual);
    }
  }

  /** The length is only known when the program runs: words, then single
      bytes. */
  method MemCpyUnknownSize(a: array<byte>, dst: nat, src: nat, n: nat, w: nat) returns (ghost writes: seq<nat>)
    requires dst + n <= a.Length && src + n <= a.Length && Apart(dst, src, n) && 0 < w
    modifies a
    ensures a[..] == Moved(old(a[..]), dst, src, n) && writes == Range(dst, n)
  {
    hide CopiedTo, Apart;
    ghost var m := a[..];
    Division(n, w);
    NothingYet(m, dst, src, n);
    var count := if w == 1 then n else n / w;
    writes := [];
    if count != 0 {
      writes := WordLoop(a, dst, src, w, count, n);
    }
    if w != 1 {
      var residual := n % w;
      var copied := n - residual;
      if residual != 0 {
        writes := ByteLoop(a, dst, src, copied, residual, m, writes);
      }
    }
    AllCopied(m, a[..], dst, src, n, writes);
  }

  lemma AllCopied(m: seq<byte>, a: seq<byte>, dst: nat, src: nat, n: nat, writes: seq<nat>)
    requires CopiedTo(m, a, dst, src, n, n, writes)
    ensures a == Moved(m, dst, src, n) && writes == Range(dst, n)
  {
  }

  /** The residual pieces add up to the remainder, and each divides the offset
      at which it is copied. */
  ghost predicate Pieces(ops: seq<nat>, start: nat, end: nat) {
    if ops == [] then start == end
    else 0 < ops[0] && start % ops[0] == 0 && start + ops[0] <= end && Pieces(ops[1..], start + ops[0], end)
  }

  /** Copies the residual pieces. */
  method PieceLoop(a: array<byte>, dst: nat, src: nat, start: nat, ops: seq<nat>, ghost m: seq<byte>, ghost n: nat, ghost before: seq<nat>)
      returns (ghost writes: seq<nat>)
    requires CopiedTo(m, a[..], dst, src, n, start, before) && Pieces(ops, start, n)
    modifies a
    ensures CopiedTo(m, a[..], dst, src, n, n, writes)
  {
    hide CopiedTo;
    writes := before;
    var i, copied := 0, start;
    assert ops[0..] == ops;
    while i < |ops|
      invariant 0 <= i <= |ops| && Pieces(ops[i..], copied, n)
      invariant CopiedTo(m, a[..], dst, src, n, copied, writes)
    {
      var size := ops[i];
      Division(copied, size);
      var gep := copied / size;
      writes := CopyPiece(a, dst, src, gep * size, size, m, n, writes);
      copied := copied + size;
      assert ops[i..][1..] == ops[i + 1..];
      i := i + 1;
    }
  }

  /** The length is a constant: words, then the residual pieces. */
  method MemCpyKnownSize(a: array<byte>, dst: nat, src: nat, n: nat, w: nat, ops: seq<nat>) returns (ghost writes: seq<nat>)
    requires dst + n <= a.Length && src + n <= a.Length && Apart(dst, src, n) && 0 < w
    requires n % w != 0 ==> Pieces(ops, n - n % w, n)
    modifies a
    ensures a[..] == Moved(old(a[..]), dst, src, n) && writes == Range(dst, n)
  {
    hide CopiedTo, Apart, Pieces;
    ghost var m := a[..];
    Division(n, w);
    NothingYet(m, dst, src, n);
    var count := n / w;
    writes := [];
    if count != 0 {
      writes := WordLoop(a, dst, src, w, count, n);
    }
    var copied := count * w;
    if n - copied != 0 {
      writes := PieceLoop(a, dst, src, copied, ops, m, n, writes);
    }
    AllCopied(m, a[..], dst, src, n, writes);
  }
}
