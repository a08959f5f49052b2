/** One flat byte-addressed memory and the transfers on it. */
module FlatMemory {

  type Byte = b: nat | b < 256

  type Mem = map<nat, Byte>

  ghost predicate Mapped(m: Mem, a: nat, n: nat) {
    forall x: nat | a <= x < a + n :: x in m
  }

  ghost function Read(m: Mem, a: nat, n: nat): (data: seq<Byte>)
    requires Mapped(m, a, n)
    ensures |data| == n
  {
    seq(n, i requires 0 <= i < n => m[a + i])
  }

  ghost function Write(m: Mem, a: nat, data: seq<Byte>): (r: Mem)
    ensures r.Keys == m.Keys
  {
    map x | x in m :: if a <= x < a + |data| then data[x - a] else m[x]
  }

  ghost function Copy(m: Mem, src: nat, dst: nat, n: nat): Mem
    requires Mapped(m, src, n)
  {
    Write(m, dst, Read(m, src, n))
  }

  predicate Disjoint(a: nat, n: nat, b: nat, k: nat) {
    a + n <= b || b + k <= a
  }

  /** The pattern of memory_fill: the value plus the index, in eight bits. */
  function Pattern(value: Byte, n: nat): (data: seq<Byte>)
    ensures |data| == n && forall i | 0 <= i < n :: data[i] == (value + i) % 256
  {
    seq(n, i requires 0 <= i < n => (value + i) % 256)
  }

  function Constant(value: Byte, n: nat): (data: seq<Byte>)
    ensures |data| == n && forall i | 0 <= i < n :: data[i] == value
  {
    seq(n, _ => value)
  }

  /** What a copy leaves at each address. */
  lemma CopyAt(m: Mem, src: nat, dst: nat, n: nat, x: nat)
    requires Mapped(m, src, n) && x in m
    ensures Copy(m, src, dst, n).Keys == m.Keys
    ensures dst <= x < dst + n ==> src + (x - dst) in m
    ensures Copy(m, src, dst, n)[x] == if dst <= x < dst + n then m[src + (x - dst)] else m[x]
  {
  }

  lemma CopyNothing(m: Mem, src: nat, dst: nat)
    ensures Mapped(m, src, 0) && Copy(m, src, dst, 0) == m
  {
  }

  /** Reading back what was written, and nothing else has moved. */
  lemma ReadAfterWrite(m: Mem, a: nat, data: seq<Byte>, b: nat, n: nat)
    requires Mapped(m, a, |data|) && Mapped(m, b, n)
    ensures Read(Write(m, a, data), a, |data|) == data
    ensures Disjoint(a, |data|, b, n) ==> Read(Write(m, a, data), b, n) == Read(m, b, n)
  {
  }

  /** Two copies commute when neither writes what the other reads or writes. */
  lemma CopiesCommute(m: Mem, s1: nat, d1: nat, n1: nat, s2: nat, d2: nat, n2: nat)
    requires Mapped(m, s1, n1) && Mapped(m, s2, n2)
    requires Disjoint(d1, n1, d2, n2) && Disjoint(d1, n1, s2, n2) && Disjoint(d2, n2, s1, n1)
    ensures Copy(Copy(m, s1, d1, n1), s2, d2, n2) == Copy(Copy(m, s2, d2, n2), s1, d1, n1)
  {
  }
}
