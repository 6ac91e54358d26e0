/**
 Copying within one memory: memmove, which picks its direction by comparing the addresses,
 and the copy by double words with a word and a byte for the rest.
 */
module MemMove {
  import opened Common

  /** Byte k of memory after n bytes from src have been copied to dest, as if through a buffer. */
  function CopiedByte(mem: seq<Byte>, dest: nat, src: nat, n: nat, k: nat): Byte
    requires dest + n <= |mem| && src + n <= |mem| && k < |mem|
  {
    if dest <= k < dest + n then mem[src + (k - dest)] else mem[k]
  }

  function Copied(mem: seq<Byte>, dest: nat, src: nat, n: nat): (after: seq<Byte>)
    requires dest + n <= |mem| && src + n <= |mem|
    ensures |after| == |mem|
  {
    mem[..dest] + mem[src..src + n] + mem[dest + n..]
  }

  lemma {:induction false} CopiedAt(mem: seq<Byte>, dest: nat, src: nat, n: nat, k: nat)
    requires dest + n <= |mem| && src + n <= |mem| && k < |mem|
    ensures Copied(mem, dest, src, n)[k] == CopiedByte(mem, dest, src, n, k)
  {
  }

  lemma {:induction false} CopiedIs(mem: seq<Byte>, after: seq<Byte>, dest: nat, src: nat, n: nat)
    requires dest + n <= |mem| && src + n <= |mem| && |after| == |mem|
    requires forall k :: 0 <= k < |mem| ==> after[k] == CopiedByte(mem, dest, src, n, k)
    ensures after == Copied(mem, dest, src, n)
  {
    forall k | 0 <= k < |mem| ensures after[k] == Copied(mem, dest, src, n)[k] {
      CopiedAt(mem, dest, src, n, k);
    }
  }

  lemma {:induction false} NothingCopied(mem: seq<Byte>, dest: nat, src: nat)
    requires dest <= |mem| && src <= |mem|
    ensures Copied(mem, dest, src, 0) == mem
  {
    CopiedIs(mem, mem, dest, src, 0);
  }

  /** Byte i of a copy in ascending order: what it reads has not been overwritten. */
  lemma {:induction false} Ascending(was: seq<Byte>, mem: seq<Byte>, dest: nat, src: nat, i: nat)
    requires dest + i < |was| && src + i < |was| && (dest <= src || src + i < dest)
    requires mem == Copied(was, dest, src, i)
    ensures mem[src + i] == was[src + i]
    ensures mem[dest + i := mem[src + i]] == Copied(was, dest, src, i + 1)
  {
    var after := mem[dest + i := mem[src + i]];
    CopiedAt(was, dest, src, i, src + i);
    forall k | 0 <= k < |was| ensures after[k] == CopiedByte(was, dest, src, i + 1, k) {
      CopiedAt(was, dest, src, i, k);
    }
    CopiedIs(was, after, dest, src, i + 1);
  }

  /** The last i bytes of a copy have been made, in descending order. */
  lemma {:induction false} Descending(was: seq<Byte>, mem: seq<Byte>, dest: nat, src: nat, n: nat, i: nat)
    requires i < n && dest + n <= |was| && src + n <= |was| && src <= dest
    requires mem == Copied(was, dest + n - i, src + n - i, i)
    ensures mem[dest + n - 1 - i := mem[src + n - 1 - i]] == Copied(was, dest + n - 1 - i, src + n - 1 - i, i + 1)
  {
    var to, from := dest + n - 1 - i, src + n - 1 - i;
    var after := mem[to := mem[from]];
    CopiedAt(was, to + 1, from + 1, i, from);
    forall k | 0 <= k < |was| ensures after[k] == CopiedByte(was, to, from, i + 1, k) {
      CopiedAt(was, to + 1, from + 1, i, k);
    }
    CopiedIs(was, after, to, from, i + 1);
  }

  /** The memory shows the copy of n bytes in what it was. */
  ghost predicate Shows(mem: array<Byte>, was: seq<Byte>, dest: nat, src: nat, n: nat)
    reads mem
  {
    |was| == mem.Length && dest + n <= |was| && src + n <= |was| && mem[..] == Copied(was, dest, src, n)
  }

  method ByteUp(mem: array<Byte>, dest: nat, src: nat, i: nat, ghost was: seq<Byte>)
    requires |was| == mem.Length && dest + i < mem.Length && src + i < mem.Length && dest <= src
    requires Shows(mem, was, dest, src, i)
    modifies mem
    ensures Shows(mem, was, dest, src, i + 1)
  {
    Ascending(was, mem[..], dest, src, i);
    hide Copied;
    mem[dest + i] := mem[src + i];
  }

  method ByteDown(mem: array<Byte>, dest: nat, src: nat, n: nat, i: nat, ghost was: seq<Byte>)
    requires |was| == mem.Length && dest + n <= mem.Length && src + n <= mem.Length && src <= dest && i < n
    requires Shows(mem, was, dest + n - i, src + n - i, i)
    modifies mem
    ensures Shows(mem, was, dest + n - 1 - i, src + n - 1 - i, i + 1)
  {
    Descending(was, mem[..], dest, src, n, i);
    hide Copied;
    mem[dest + n - 1 - i] := mem[src + n - 1 - i];
  }

  method RepMovsbUp(mem: array<Byte>, dest: nat, src: nat, n: nat, ghost was: seq<Byte>)
    requires |was| == mem.Length && dest + n <= mem.Length && src + n <= mem.Length && dest <= src
    requires Shows(mem, was, dest, src, 0)
    modifies mem
    ensures Shows(mem, was, dest, src, n)
  {
    hide Shows, Copied;
    var i := 0;
    while i < n
      invariant 0 <= i <= n && Shows(mem, was, dest, src, i)
    {
      ByteUp(mem, dest, src, i, was);
      i := i + 1;
    }
  }

  method RepMovsbDown(mem: array<Byte>, dest: nat, src: nat, n: nat, ghost was: seq<Byte>)
    requires |was| == mem.Length && dest + n <= mem.Length && src + n <= mem.Length && src <= dest
    requires Shows(mem, was, dest + n, src + n, 0)
    modifies mem
    ensures Shows(mem, was, dest, src, n)
  {
    hide Shows, Copied;
    var i := 0;
    while i < n
      invariant 0 <= i <= n && Shows(mem, was, dest + n - i, src + n - i, i)
    {
      ByteDown(mem, dest, src, n, i, was);
      i := i + 1;
    }
  }

  /** Every overlap and every length: upwards exactly when dest is below src. */
  method Memmove(mem: array<Byte>, dest: nat, src: nat, n: nat)
    requires dest + n <= mem.Length && src + n <= mem.Length
    modifies mem
    ensures mem[..] == Copied(old(mem[..]), dest, src, n)
  {
    ghost var was := mem[..];
    NothingShown(mem, dest, src);
    NothingShown(mem, dest + n, src + n);
    hide Shows, Copied;
    if dest < src {
      RepMovsbUp(mem, dest, src, n, was);
    } else {
      RepMovsbDown(mem, dest, src, n, was);
    }
    ShownIs(mem, was, dest, src, n);
  }

  /** The other direction would do exactly when each byte written too early equals the one it
      replaces: ascending copies to a higher address repeat the first dest - src bytes. */
  ghost predicate Repeats(mem: seq<Byte>, src: nat, n: nat, period: nat)
    requires src + n <= |mem|
  {
    forall k :: src + period <= k < src + n ==> mem[k] == mem[k - period]
  }

  /** An ascending copy of n bytes, whatever the overlap. */
  function AscendingCopy(mem: seq<Byte>, dest: nat, src: nat, n: nat): (after: seq<Byte>)
    requires dest + n <= |mem| && src + n <= |mem|
    ensures |after| == |mem|
  {
    if n <= 0 then mem
    else
      var before := AscendingCopy(mem, dest, src, n - 1);
      before[dest + n - 1 := before[src + n - 1]]
  }

  lemma {:induction false} AscendingCopyAt(mem: seq<Byte>, dest: nat, src: nat, n: nat, k: nat)
    requires dest + n <= |mem| && src + n <= |mem| && src < dest && k < |mem|
    ensures AscendingCopy(mem, dest, src, n)[k]
         == if dest <= k < dest + n then AscendingCopy(mem, dest, src, n)[k - (dest - src)] else mem[k]
  {
    if n > 0 {
      AscendingCopyAt(mem, dest, src, n - 1, k);
      AscendingCopyAt(mem, dest, src, n - 1, src + n - 1);
    }
  }

  /** The direction test is needed: above src an ascending copy is right exactly when the
      source repeats with the distance of the two ranges. */
  lemma {:induction false} AscendingIsRightExactly(mem: seq<Byte>, dest: nat, src: nat, n: nat)
    requires dest + n <= |mem| && src + n <= |mem| && src < dest
    ensures AscendingCopy(mem, dest, src, n) == Copied(mem, dest, src, n) <==> Repeats(mem, src, n, dest - src)
  {
    var a, c, d := AscendingCopy(mem, dest, src, n), Copied(mem, dest, src, n), dest - src;
    if a == c {
      forall k | src + d <= k < src + n ensures mem[k] == mem[k - d] {
        AscendingCopyAt(mem, dest, src, n, k);
        AscendingCopyAt(mem, dest, src, n, k + d);
        CopiedAt(mem, dest, src, n, k);
        CopiedAt(mem, dest, src, n, k + d);
      }
    }
    if Repeats(mem, src, n, d) {
      RepeatsIsRight(mem, dest, src, n, n);
    }
  }

  lemma {:induction false} RepeatedByte(mem: seq<Byte>, src: nat, n: nat, period: nat, i: nat)
    requires src + n <= |mem| && Repeats(mem, src, n, period) && 0 < i <= n
    ensures i > period > 0 ==> mem[src + i - 1] == mem[src + i - 1 - period]
  {
  }

  /** One byte more of an ascending copy that is right so far. */
  lemma {:induction false} RepeatedStep(mem: seq<Byte>, dest: nat, src: nat, n: nat, i: nat)
    requires dest + n <= |mem| && src + n <= |mem| && src < dest && 0 < i <= n && Repeats(mem, src, n, dest - src)
    ensures var before := Copied(mem, dest, src, i - 1);
            before[dest + i - 1 := before[src + i - 1]] == Copied(mem, dest, src, i)
  {
    var before := Copied(mem, dest, src, i - 1);
    var after := before[dest + i - 1 := before[src + i - 1]];
    CopiedAt(mem, dest, src, i - 1, src + i - 1);
    RepeatedByte(mem, src, n, dest - src, i);
    hide Copied, Repeats;
    forall k | 0 <= k < |mem| ensures after[k] == CopiedByte(mem, dest, src, i, k) {
      CopiedAt(mem, dest, src, i - 1, k);
    }
    CopiedIs(mem, after, dest, src, i);
  }

  lemma {:induction false} RepeatsIsRight(mem: seq<Byte>, dest: nat, src: nat, n: nat, i: nat)
    requires dest + n <= |mem| && src + n <= |mem| && src < dest && i <= n && Repeats(mem, src, n, dest - src)
    ensures AscendingCopy(mem, dest, src, i) == Copied(mem, dest, src, i)
  {
    if i > 0 {
      RepeatsIsRight(mem, dest, src, n, i - 1);
      RepeatedStep(mem, dest, src, n, i);
      hide Copied, Repeats;
    } else {
      NothingCopied(mem, dest, src);
      hide Copied, Repeats;
    }
  }

  /** Byte k after `width` bytes read at once have been written at once. */
  function MovedByte(now: seq<Byte>, to: nat, from: nat, width: nat, k: nat): Byte
    requires to + width <= |now| && from + width <= |now| && k < |now|
  {
    if to <= k < to + width then now[from + (k - to)] else now[k]
  }

  lemma {:induction false} MovedIsCopied(was: seq<Byte>, now: seq<Byte>, dest: nat, src: nat, i: nat, width: nat,
                                         k: nat)
    requires dest + i + width <= |was| && src + i + width <= |was| && k < |was|
    requires dest <= src || src + i + width <= dest
    requires now == Copied(was, dest, src, i)
    ensures MovedByte(now, dest + i, src + i, width, k) == CopiedByte(was, dest, src, i + width, k)
  {
    CopiedAt(was, dest, src, i, k);
    if dest + i <= k < dest + i + width {
      CopiedAt(was, dest, src, i, src + (k - dest));
    }
    hide Copied;
  }

  /** Writes a word, byte by byte as far as memory is concerned. */
  method WriteWord(mem: array<Byte>, to: nat, from: nat, word: seq<Byte>, ghost now: seq<Byte>)
    requires now == mem[..] && to + |word| <= |now| && from + |word| <= |now| && word == now[from..from + |word|]
    modifies mem
    ensures forall k :: 0 <= k < mem.Length ==> mem[k] == MovedByte(now, to, from, |word|, k)
  {
    for i := 0 to |word|
      invariant forall k :: 0 <= k < mem.Length ==> mem[k] == MovedByte(now, to, from, i, k)
    {
      mem[to + i] := word[i];
    }
  }

  /** Moves `width` bytes at once: all are read before any is written. */
  method Movs(mem: array<Byte>, dest: nat, src: nat, i: nat, width: nat, ghost was: seq<Byte>)
    requires dest + i + width <= mem.Length && src + i + width <= mem.Length && |was| == mem.Length
    requires dest <= src || src + i + width <= dest
    requires Shows(mem, was, dest, src, i)
    modifies mem
    ensures Shows(mem, was, dest, src, i + width)
  {
    ghost var now := mem[..];
    WriteWord(mem, dest + i, src + i, mem[src + i..src + i + width], now);
    hide Copied, MovedByte, CopiedByte;
    forall k | 0 <= k < |was| ensures mem[..][k] == CopiedByte(was, dest, src, i + width, k) {
      MovedIsCopied(was, now, dest, src, i, width, k);
    }
    CopiedIs(was, mem[..], dest, src, i + width);
  }

  /** rep movsl: as many double words as fit. */
  method RepMovsl(mem: array<Byte>, dest: nat, src: nat, count: nat, ghost was: seq<Byte>)
    requires dest + 4 * count <= mem.Length && src + 4 * count <= mem.Length && |was| == mem.Length
    requires dest <= src || src + 4 * count <= dest
    requires Shows(mem, was, dest, src, 0)
    modifies mem
    ensures Shows(mem, was, dest, src, 4 * count)
  {
    hide Shows, Copied;
    var ecx := 0;
    while ecx < count
      invariant 0 <= ecx <= count && Shows(mem, was, dest, src, 4 * ecx)
    {
      Movs(mem, dest, src, 4 * ecx, 4, was);
      ecx := ecx + 1;
    }
  }

  /** The word and the byte that are left after the double words. */
  method MovsRest(mem: array<Byte>, dest: nat, src: nat, done: nat, word: bool, byte: bool, ghost was: seq<Byte>)
    requires var n := done + (if word then 2 else 0) + (if byte then 1 else 0);
             dest + n <= mem.Length && src + n <= mem.Length && (dest <= src || src + n <= dest)
    requires |was| == mem.Length && Shows(mem, was, dest, src, done)
    modifies mem
    ensures Shows(mem, was, dest, src, done + (if word then 2 else 0) + (if byte then 1 else 0))
  {
    hide Shows, Copied;
    var at := done;
    if word {
      Movs(mem, dest, src, at, 2, was);
      at := at + 2;
    }
    if byte {
      Movs(mem, dest, src, at, 1, was);
    }
  }

  lemma {:induction false} SplitCount(n: nat)
    ensures n == 4 * (n / 4) + (if n / 2 % 2 == 1 then 2 else 0) + (if n % 2 == 1 then 1 else 0)
  {
    assert n == 4 * (n / 4) + n % 4;
  }

  lemma {:induction false} NothingShown(mem: array<Byte>, dest: nat, src: nat)
    requires dest <= mem.Length && src <= mem.Length
    ensures Shows(mem, mem[..], dest, src, 0)
  {
    NothingCopied(mem[..], dest, src);
  }

  /** Exactly n bytes for every n, unless dest lies within the source above its start. */
  method Memcpy(mem: array<Byte>, dest: nat, src: nat, n: nat)
    requires dest + n <= mem.Length && src + n <= mem.Length
    requires dest <= src || src + n <= dest
    modifies mem
    ensures mem[..] == Copied(old(mem[..]), dest, src, n)
  {
    SplitCount(n);
    CopyParts(mem, dest, src, n, n / 4, n / 2 % 2 == 1, n % 2 == 1);
  }

  method CopyParts(mem: array<Byte>, dest: nat, src: nat, n: nat, count: nat, word: bool, byte: bool)
    requires dest + n <= mem.Length && src + n <= mem.Length
    requires dest <= src || src + n <= dest
    requires n == 4 * count + (if word then 2 else 0) + (if byte then 1 else 0)
    modifies mem
    ensures mem[..] == Copied(old(mem[..]), dest, src, n)
  {
    ghost var was := mem[..];
    NothingShown(mem, dest, src);
    hide Shows, Copied;
    RepMovsl(mem, dest, src, count, was);
    MovsRest(mem, dest, src, 4 * count, word, byte, was);
    ShownIs(mem, was, dest, src, n);
  }

  lemma {:induction false} ShownIs(mem: array<Byte>, was: seq<Byte>, dest: nat, src: nat, n: nat)
    requires Shows(mem, was, dest, src, n)
    ensures mem[..] == Copied(was, dest, src, n)
  {
  }
}
