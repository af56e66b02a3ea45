/** Types and constants shared by several components of the kernel model. */
module Base {

  datatype Option<+T> = None | Some(value: T)

  /** The error numbers that the modelled paths return; Ok stands for 0. */
  datatype Err =
    | Ok
    | EAGAIN
    | EACCES
    | EBUSY
    | EEXIST
    | EFAULT
    | EINTR
    | EINVAL
    | EIO
    | E2BIG
    | EISDIR
    | ENAMETOOLONG
    | ENOENT
    | ENOMEM
    | ENOSPC
    | ENOTDIR
    | ETIMEDOUT

  const U64: nat := 0x1_0000_0000_0000_0000

  const PAGE_SIZE: nat := 4096

  /** First address above the user half (USER_TOP). */
  const USER_TOP: nat := 0x8000_0000_0000

  predicate Aligned(a: int) {
    a % PAGE_SIZE == 0
  }

  function PageDown(a: nat): (p: nat)
    ensures Aligned(p) && p <= a < p + PAGE_SIZE
  {
    a - a % PAGE_SIZE
  }

  /** page_align_up in 64-bit arithmetic: the sum wraps, then the low 12 bits are dropped. */
  function PageAlignUp(a: nat): (p: nat)
    requires a < U64
    ensures Aligned(p) && p < U64
    ensures a <= U64 - PAGE_SIZE ==> a <= p < a + PAGE_SIZE
    ensures a > U64 - PAGE_SIZE ==> p == 0
  {
    PageDown((a + PAGE_SIZE - 1) % U64)
  }

  /** The buckets of an empty table. */
  function NoLists(n: nat): (m: map<nat, seq<nat>>)
    ensures forall b: nat :: b in m <==> b < n
    ensures forall b: nat :: b in m ==> m[b] == []
  {
    if n == 0 then map[] else NoLists(n - 1)[n - 1 := []]
  }

  /** Cutting one place out of a list without repetitions. */
  lemma CutMember(l: seq<nat>, i: nat, u: nat)
    requires (forall j, k :: 0 <= j < k < |l| ==> l[j] != l[k]) && i < |l|
    ensures u in l[..i] + l[i + 1..] <==> u in l && u != l[i]
  {
    var k := l[..i] + l[i + 1..];
    if u in l && u != l[i] {
      var j :| 0 <= j < |l| && l[j] == u;
      assert j < i ==> k[j] == u;
      assert j > i ==> k[j - 1] == u;
    }
  }
}
