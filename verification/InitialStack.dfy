/** The initial user stack (kernel/exec/elf64.c:199-235, 416-550; the process entry layout of
    section 3.4.1 of the System V AMD64 ABI). */
module InitialStack {
  import opened Base

  const STACK_TOP: nat := 0x8000_0000
  const STACK_SIZE: nat := 0x2_0000
  const ASLR_PAGES: nat := 2048

  type Byte = b: nat | b < 256

  type Page = s: seq<Byte> | |s| == PAGE_SIZE witness BlankPage()

  function BlankPage(): (s: seq<Byte>)
    ensures |s| == PAGE_SIZE
  {
    seq(PAGE_SIZE, i => 0)
  }

  /** The mapped pages of an address space, by page address. */
  type Pages = map<nat, Page>

  ghost predicate Mapped(pages: Pages, lo: nat, hi: nat) {
    forall a :: lo <= a < hi ==> a - a % PAGE_SIZE in pages
  }

  /** The byte at a mapped address. */
  function At(pages: Pages, a: nat): Byte
    requires a - a % PAGE_SIZE in pages
  {
    pages[a - a % PAGE_SIZE][a % PAGE_SIZE]
  }

  /** From `before` to `after` the bytes `src` are stored at `va` and nothing else changes. */
  ghost predicate Stored(before: Pages, after: Pages, va: nat, src: seq<Byte>) {
    && after.Keys == before.Keys && Mapped(after, va, va + |src|)
    && (forall a :: va <= a < va + |src| ==> At(after, a) == src[a - va])
    && (forall a: nat :: a - a % PAGE_SIZE in before && !(va <= a < va + |src|) ==> At(after, a) == At(before, a))
  }

  lemma StoredNothing(pages: Pages, va: nat)
    ensures Stored(pages, pages, va, [])
  {
  }

  lemma StoredMore(u: Pages, v: Pages, w: Pages, va: nat, a: seq<Byte>, b: seq<Byte>)
    requires Stored(u, v, va, a) && Stored(v, w, va + |a|, b)
    ensures Stored(u, w, va, a + b)
  {
    forall x | va <= x < va + |a + b| ensures x - x % PAGE_SIZE in w && At(w, x) == (a + b)[x - va] {
      if x < va + |a| {
        assert x - x % PAGE_SIZE in v;
        assert At(v, x) == a[x - va];
      } else {
        assert At(w, x) == b[x - (va + |a|)];
      }
    }
    forall x: nat | x - x % PAGE_SIZE in u && !(va <= x < va + |a + b|) ensures At(w, x) == At(u, x) {
      assert At(v, x) == At(u, x);
    }
  }

  /** Bytes within one page. */
  lemma StoredInPage(pages: Pages, va: nat, src: seq<Byte>)
    requires va % PAGE_SIZE + |src| <= PAGE_SIZE && va - va % PAGE_SIZE in pages
    ensures var page, off := va - va % PAGE_SIZE, va % PAGE_SIZE;
      var p := pages[page];
      Stored(pages, pages[page := p[..off] + src + p[off + |src|..]], va, src)
  {
    var page, off := va - va % PAGE_SIZE, va % PAGE_SIZE;
    var after := pages[page := pages[page][..off] + src + pages[page][off + |src|..]];
    forall a | va <= a < va + |src| ensures a - a % PAGE_SIZE in after && At(after, a) == src[a - va] {
      assert a - a % PAGE_SIZE == page && a % PAGE_SIZE == off + (a - va);
    }
    forall a: nat | a - a % PAGE_SIZE in pages && !(va <= a < va + |src|) ensures At(after, a) == At(pages, a) {
      if a - a % PAGE_SIZE == page {
        assert a % PAGE_SIZE < off || a % PAGE_SIZE >= off + |src|;
      }
    }
  }

  // ------------------------------------------------------------------------
  // Words
  // ------------------------------------------------------------------------

  function Pow256(n: nat): (r: nat)
    ensures r > 0
  {
    if n == 0 then 1 else 256 * Pow256(n - 1)
  }

  /** Little-endian bytes. */
  function Le(v: nat, n: nat): (s: seq<Byte>)
    ensures |s| == n
  {
    if n == 0 then [] else [v % 256] + Le(v / 256, n - 1)
  }

  function Value(s: seq<Byte>): nat {
    if s == [] then 0 else
      var low: nat := s[0];
      low + 256 * Value(s[1..])
  }

  lemma {:induction false} ValueLe(v: nat, n: nat)
    requires v < Pow256(n)
    ensures Value(Le(v, n)) == v
  {
    if n > 0 {
      ValueLe(v / 256, n - 1);
      assert Le(v, n)[1..] == Le(v / 256, n - 1);
    }
  }

  lemma WordFits()
    ensures Pow256(8) == U64
  {
    assert Pow256(2) == 0x1_0000 && Pow256(4) == 0x1_0000 * Pow256(2);
    assert Pow256(6) == 0x1_0000 * Pow256(4) && Pow256(8) == 0x1_0000 * Pow256(6);
  }

  function Words(ws: seq<nat>): (s: seq<Byte>)
    ensures |s| == 8 * |ws|
  {
    if ws == [] then [] else Le(ws[0], 8) + Words(ws[1..])
  }

  lemma {:induction false} WordAt(ws: seq<nat>, i: nat)
    requires i < |ws|
    ensures Words(ws)[8 * i..8 * i + 8] == Le(ws[i], 8)
  {
    if i > 0 {
      WordAt(ws[1..], i - 1);
      var rest := Words(ws[1..]);
      assert Words(ws)[8 * i..8 * i + 8] == rest[8 * (i - 1)..8 * (i - 1) + 8];
    }
  }

  /** `n` bytes from a mapped address. */
  ghost function Bytes(pages: Pages, a: nat, n: nat): seq<Byte>
    requires Mapped(pages, a, a + n)
    decreases n
  {
    if n == 0 then [] else [At(pages, a)] + Bytes(pages, a + 1, n - 1)
  }

  /** The 64-bit word at a mapped address. */
  ghost function ReadWord(pages: Pages, a: nat): nat
    requires Mapped(pages, a, a + 8)
  {
    Value(Bytes(pages, a, 8))
  }

  lemma {:induction false} BytesStored(before: Pages, after: Pages, va: nat, src: seq<Byte>, k: nat, n: nat)
    requires Stored(before, after, va, src) && k + n <= |src|
    ensures Mapped(after, va + k, va + k + n) && Bytes(after, va + k, n) == src[k..k + n]
    decreases n
  {
    if n > 0 {
      BytesStored(before, after, va, src, k + 1, n - 1);
      assert At(after, va + k) == src[k];
      assert src[k..k + n] == [src[k]] + src[k + 1..k + n];
    }
  }

  lemma ReadStoredWord(before: Pages, after: Pages, va: nat, src: seq<Byte>, k: nat, w: nat)
    requires Stored(before, after, va, src) && k + 8 <= |src| && src[k..k + 8] == Le(w, 8) && w < U64
    ensures Mapped(after, va + k, va + k + 8) && ReadWord(after, va + k) == w
  {
    hide Le, Value, Pow256, Stored, Mapped, Bytes, At;
    BytesStored(before, after, va, src, k, 8);
    WordFits();
    ValueLe(w, 8);
  }

  /** A stored frame reads back word by word. */
  lemma ReadFrame(before: Pages, after: Pages, va: nat, ws: seq<nat>, i: nat)
    requires i < |ws| && ws[i] < U64 && Stored(before, after, va, Words(ws))
    ensures Mapped(after, va + 8 * i, va + 8 * i + 8) && ReadWord(after, va + 8 * i) == ws[i]
  {
    hide *;
    WordAt(ws, i);
    ReadStoredWord(before, after, va, Words(ws), 8 * i, ws[i]);
  }

  // ------------------------------------------------------------------------
  // Strings
  // ------------------------------------------------------------------------

  /** A C string: no NUL inside. */
  ghost predicate Text(s: seq<Byte>) {
    forall k :: 0 <= k < |s| ==> s[k] != 0
  }

  /** The string stored at `a`, with its terminator. */
  ghost predicate CString(pages: Pages, a: nat, s: seq<Byte>) {
    && Mapped(pages, a, a + |s| + 1)
    && (forall x :: a <= x < a + |s| ==> At(pages, x) == s[x - a])
    && At(pages, a + |s|) == 0
  }

  /** Bytes needed for strings with their terminators. */
  function Size(ss: seq<seq<Byte>>): nat {
    if ss == [] then 0 else |ss[0]| + 1 + Size(ss[1..])
  }

  lemma CStringStored(before: Pages, after: Pages, a: nat, s: seq<Byte>)
    requires Stored(before, after, a, s + [0])
    ensures CString(after, a, s)
  {
    assert (s + [0])[..|s|] == s;
  }

  /** Storing elsewhere leaves a string alone. */
  lemma CStringKept(before: Pages, after: Pages, va: nat, src: seq<Byte>, a: nat, s: seq<Byte>)
    requires Stored(before, after, va, src) && CString(before, a, s) && va + |src| <= a
    ensures CString(after, a, s)
  {
  }

  /** All strings are in place, back to back below `top`. */
  ghost predicate Placed(pages: Pages, ss: seq<seq<Byte>>, at: seq<nat>, top: nat) {
    && |at| == |ss|
    && forall i :: 0 <= i < |ss| ==> at[i] + Size(ss[i..]) == top && CString(pages, at[i], ss[i])
  }

  lemma PlacedKept(before: Pages, after: Pages, va: nat, src: seq<Byte>, ss: seq<seq<Byte>>, at: seq<nat>, top: nat)
    requires Placed(before, ss, at, top) && Stored(before, after, va, src) && va + |src| + Size(ss) <= top
    ensures Placed(after, ss, at, top)
  {
    forall i | 0 <= i < |ss| ensures CString(after, at[i], ss[i]) {
      SizeTail(ss, i);
      CStringKept(before, after, va, src, at[i], ss[i]);
    }
  }

  lemma {:induction false} SizeTail(ss: seq<seq<Byte>>, i: nat)
    requires i <= |ss|
    ensures Size(ss[i..]) <= Size(ss)
  {
    if i > 0 {
      SizeTail(ss[1..], i - 1);
      assert ss[1..][i - 1..] == ss[i..];
    } else {
      assert ss[0..] == ss;
    }
  }

  function Top(aslr: nat): nat
    requires aslr < ASLR_PAGES
  {
    STACK_TOP - aslr * PAGE_SIZE
  }

  /** argc, the argument pointers and a null, the environment pointers and a null, and an empty
      auxiliary vector. */
  function FrameWords(argv: seq<seq<Byte>>, envp: seq<seq<Byte>>): nat {
    1 + |argv| + 1 + |envp| + 1 + 2
  }

  function Frame(argvAt: seq<nat>, envpAt: seq<nat>): seq<nat> {
    [|argvAt|] + argvAt + [0] + envpAt + [0, 0, 0]
  }

  /** The strings, rounded down to 16, and the frame, rounded down to 16, fit the stack. */
  predicate Fits(argv: seq<seq<Byte>>, envp: seq<seq<Byte>>, aslr: nat)
    requires aslr < ASLR_PAGES
  {
    Top(aslr) - STACK_SIZE <= FrameAt(Top(aslr) - Size(envp) - Size(argv), FrameWords(argv, envp))
  }

  /** The stack pointer for a frame of `words` words below `low`: both rounded down to 16. */
  function FrameAt(low: int, words: nat): (sp: int)
    ensures sp % 16 == 0 && low - 8 * words - 32 < sp <= low - 8 * words
  {
    var frame := low - low % 16 - 8 * words;
    frame - frame % 16
  }

  /** The finished stack: the frame at `sp` holds the addresses of the strings, which lie above it,
      environment strings on top, arguments below them. */
  ghost predicate Laid(pages: Pages, sp: nat, argv: seq<seq<Byte>>, argvAt: seq<nat>, envp: seq<seq<Byte>>,
                       envpAt: seq<nat>, top: nat) {
    var words := Frame(argvAt, envpAt);
    && Size(argv) + Size(envp) + 8 * |words| <= top
    && sp + 8 * |words| <= top - Size(envp) - Size(argv)
    && Placed(pages, envp, envpAt, top) && Placed(pages, argv, argvAt, top - Size(envp))
    && forall n :: 0 <= n < |words| ==> WordIs(pages, sp, n, words[n])
  }

  ghost predicate WordIs(pages: Pages, sp: nat, n: nat, w: nat) {
    Mapped(pages, sp + 8 * n, sp + 8 * n + 8) && ReadWord(pages, sp + 8 * n) == w
  }

  /** Bytes outside the range are as before. */
  ghost predicate Untouched(before: Pages, after: Pages, lo: nat, hi: nat) {
    after.Keys == before.Keys && forall a: nat :: a - a % PAGE_SIZE in before && !(lo <= a < hi) ==>
        At(after, a) == At(before, a)
  }

  lemma UntouchedSelf(pages: Pages, top: nat)
    ensures Untouched(pages, pages, top, top)
  {
  }

  lemma UntouchedMore(u: Pages, v: Pages, w: Pages, va: nat, src: seq<Byte>, hi: nat)
    requires Untouched(u, v, va + |src|, hi) && Stored(v, w, va, src) && va + |src| <= hi
    ensures Untouched(u, w, va, hi)
  {
  }

  lemma StillMapped(before: Pages, pages: Pages, base: nat, top: nat, sp: nat, n: nat)
    requires Mapped(before, base, top) && pages.Keys == before.Keys && base <= sp && sp + n <= top
    ensures Mapped(pages, sp, sp + n)
  {
  }

  lemma SizeNone(ss: seq<seq<Byte>>)
    ensures Size(ss[|ss|..]) == 0
  {
  }

  lemma SizeNext(ss: seq<seq<Byte>>, i: nat)
    requires i < |ss|
    ensures Size(ss[i..]) == |ss[i]| + 1 + Size(ss[i + 1..])
  {
    assert ss[i..][1..] == ss[i + 1..];
  }

  lemma PlacedNext(pages: Pages, ss: seq<seq<Byte>>, i: nat, sp: nat, at: seq<nat>, top: nat)
    requires i < |ss| && Placed(pages, ss[i + 1..], at, top) && CString(pages, sp, ss[i]) && sp + Size(ss[i..]) == top
    ensures Placed(pages, ss[i..], [sp] + at, top)
  {
    hide CString, Size;
    var rest, all := ss[i + 1..], ss[i..];
    forall j | 0 <= j < |all| ensures ([sp] + at)[j] + Size(all[j..]) == top && CString(pages, ([sp] + at)[j], all[j]) {
      if j == 0 {
        assert all[0..] == all;
      } else {
        assert all[j..] == rest[j - 1..] && all[j] == rest[j - 1];
      }
    }
  }

  lemma OnePage(pages: Pages, at: nat, chunk: nat)
    requires at % PAGE_SIZE + chunk <= PAGE_SIZE && at - at % PAGE_SIZE in pages
    ensures Mapped(pages, at, at + chunk)
  {
    forall a | at <= a < at + chunk ensures a - a % PAGE_SIZE in pages {
      assert a - a % PAGE_SIZE == at - at % PAGE_SIZE;
    }
  }

  lemma MappedBelow(before: Pages, pages: Pages, base: nat, top: nat, mid: nat)
    requires Mapped(before, base, top) && pages.Keys == before.Keys && mid <= top
    ensures Mapped(pages, base, mid)
  {
  }

  lemma PlacedCount(pages: Pages, ss: seq<seq<Byte>>, at: seq<nat>, top: nat)
    requires Placed(pages, ss, at, top)
    ensures |at| == |ss|
  {
  }

  /** Strings above `mid` survive changes below it. */
  lemma PlacedBelow(before: Pages, after: Pages, ss: seq<seq<Byte>>, at: seq<nat>, top: nat, low: nat)
    requires Placed(before, ss, at, top) && Size(ss) <= top && Untouched(before, after, low, top - Size(ss))
    ensures Placed(after, ss, at, top)
  {
    forall i | 0 <= i < |ss| ensures CString(after, at[i], ss[i]) {
      SizeTail(ss, i);
      assert forall a :: at[i] <= a <= at[i] + |ss[i]| ==> a - a % PAGE_SIZE in before;
    }
  }

  lemma UntouchedJoin(u: Pages, v: Pages, w: Pages, mid: nat, top: nat, low: nat)
    requires Untouched(u, v, mid, top) && Untouched(v, w, low, mid) && low <= mid <= top
    ensures Untouched(u, w, low, top)
  {
  }

  lemma UntouchedFrame(u: Pages, v: Pages, w: Pages, va: nat, src: seq<Byte>, low: nat, top: nat)
    requires Untouched(u, v, low, top) && Stored(v, w, va, src) && va + |src| <= low <= top
    ensures Untouched(u, w, va, top)
  {
  }

  lemma FrameStored(before: Pages, pages: Pages, sp: nat, argv: seq<seq<Byte>>, argvAt: seq<nat>,
                    envp: seq<seq<Byte>>, envpAt: seq<nat>, top: nat)
    requires Stored(before, pages, sp, Words(Frame(argvAt, envpAt))) && top < U64
    requires Size(argv) + Size(envp) <= top && sp + 8 * |Frame(argvAt, envpAt)| <= top - Size(envp) - Size(argv)
    requires Placed(pages, envp, envpAt, top) && Placed(pages, argv, argvAt, top - Size(envp))
    ensures Laid(pages, sp, argv, argvAt, envp, envpAt, top)
  {
    hide Stored, Words, CString, Size, ReadWord, Mapped;
    var words := Frame(argvAt, envpAt);
    forall n | 0 <= n < |words| ensures WordIs(pages, sp, n, words[n]) {
      assert words[n] < U64;
      ReadFrame(before, pages, sp, words, n);
    }
  }

  // ------------------------------------------------------------------------
  // Reading the stack back
  // ------------------------------------------------------------------------

  /** A C string is determined by its address. */
  lemma StringUnique(pages: Pages, a: nat, s: seq<Byte>, t: seq<Byte>)
    requires CString(pages, a, s) && CString(pages, a, t) && Text(s) && Text(t)
    ensures s == t
  {
    assert At(pages, a + |s|) == 0 && At(pages, a + |t|) == 0;
    forall k | 0 <= k < |s| && k < |t| ensures s[k] == t[k] {
      assert At(pages, a + k) == s[k];
    }
  }

  /** Strings lie one after the other. */
  lemma {:induction false} StringsApart(pages: Pages, ss: seq<seq<Byte>>, at: seq<nat>, top: nat, i: nat, j: nat)
    requires Placed(pages, ss, at, top) && i < j < |ss|
    ensures at[i] + |ss[i]| + 1 <= at[j]
  {
    hide CString, Size;
    SizeNext(ss, i);
    SizeTail(ss[i + 1..], j - i - 1);
    assert ss[i + 1..][j - i - 1..] == ss[j..];
  }

  lemma StringInside(pages: Pages, ss: seq<seq<Byte>>, at: seq<nat>, top: nat, i: nat)
    requires Placed(pages, ss, at, top) && i < |ss| && Size(ss) <= top
    ensures top - Size(ss) <= at[i] && at[i] + |ss[i]| + 1 <= top
  {
    SizeTail(ss, i);
    SizeNext(ss, i);
  }

  /** The words from the stack pointer up give back argc, the strings and the terminators. */
  lemma Decoded(pages: Pages, sp: nat, argv: seq<seq<Byte>>, argvAt: seq<nat>, envp: seq<seq<Byte>>, envpAt: seq<nat>,
                top: nat)
    requires Laid(pages, sp, argv, argvAt, envp, envpAt, top)
    ensures |argvAt| == |argv| && |envpAt| == |envp|
    ensures WordIs(pages, sp, 0, |argv|)
    ensures forall i :: 0 <= i < |argv| ==> WordIs(pages, sp, 1 + i, argvAt[i]) && CString(pages, argvAt[i], argv[i])
    ensures WordIs(pages, sp, 1 + |argv|, 0)
    ensures forall i :: 0 <= i < |envp| ==>
              WordIs(pages, sp, 2 + |argv| + i, envpAt[i]) && CString(pages, envpAt[i], envp[i])
    ensures WordIs(pages, sp, 2 + |argv| + |envp|, 0)
    ensures forall i :: 0 <= i < |argv| ==>
      sp + 8 * FrameWords(argv, envp) <= argvAt[i] && argvAt[i] + |argv[i]| + 1 <= top - Size(envp)
    ensures forall i :: 0 <= i < |envp| ==> top - Size(envp) <= envpAt[i] && envpAt[i] + |envp[i]| + 1 <= top
  {
    hide CString, Size, WordIs;
    var words := Frame(argvAt, envpAt);
    forall i | 0 <= i < |argv| ensures WordIs(pages, sp, 1 + i, argvAt[i]) && CString(pages, argvAt[i], argv[i])
      ensures sp + 8 * FrameWords(argv, envp) <= argvAt[i] && argvAt[i] + |argv[i]| + 1 <= top - Size(envp)
    {
      assert words[1 + i] == argvAt[i];
      StringInside(pages, argv, argvAt, top - Size(envp), i);
    }
    forall i | 0 <= i < |envp| ensures WordIs(pages, sp, 2 + |argv| + i, envpAt[i]) &&
        CString(pages, envpAt[i], envp[i])
      ensures top - Size(envp) <= envpAt[i] && envpAt[i] + |envp[i]| + 1 <= top
    {
      assert words[2 + |argv| + i] == envpAt[i];
      StringInside(pages, envp, envpAt, top, i);
    }
    assert words[0] == |argv| && words[1 + |argv|] == 0 && words[2 + |argv| + |envp|] == 0;
  }

  // ------------------------------------------------------------------------
  // The address space
  // ------------------------------------------------------------------------

  class Space {
    var pages: Pages

    /** `write_to_space`: page by page, failing at the first unmapped page. */
    method WriteTo(va: nat, src: seq<Byte>) returns (ok: bool)
      modifies this`pages
      ensures ok <==> Mapped(old(pages), va, va + |src|)
      ensures pages.Keys == old(pages).Keys
      ensures ok ==> Stored(old(pages), pages, va, src)
    {
      hide Stored;
      var done := 0;
      StoredNothing(pages, va);
      assert src[..0] == [];
      while done < |src|
        invariant 0 <= done <= |src| && pages.Keys == old(pages).Keys
        invariant Stored(old(pages), pages, va, src[..done]) && Mapped(old(pages), va, va + done)
      {
        var at := va + done;
        var off := at % PAGE_SIZE;
        var page := at - off;
        var chunk := if PAGE_SIZE - off > |src| - done then |src| - done else PAGE_SIZE - off;
        if page !in pages {
          assert !Mapped(old(pages), va, va + |src|);
          return false;
        }
        ghost var before := pages;
        var piece := src[done..done + chunk];
        StoredInPage(pages, at, piece);
        pages := pages[page := pages[page][..off] + piece + pages[page][off + chunk..]];
        StoredMore(old(pages), before, pages, va, src[..done], piece);
        assert src[..done] + piece == src[..done + chunk];
        OnePage(old(pages), at, chunk);
        done := done + chunk;
      }
      assert src[..done] == src;
      ok := true;
    }

    /** Copies strings below `top`, last one first; their addresses are in `at`. */
    method PushStrings(ss: seq<seq<Byte>>, top: nat, base: nat) returns (ok: bool, sp: nat, at: seq<nat>)
      requires base <= top && Mapped(pages, base, top) && Size(ss) <= top
      modifies this`pages
      ensures pages.Keys == old(pages).Keys
      ensures ok <==> Size(ss) <= top - base
      ensures ok ==> sp == top - Size(ss) && Placed(pages, ss, at, top) && Untouched(old(pages), pages, sp, top)
    {
      hide Stored, CString, Size;
      var i := |ss|;
      sp, at := top, [];
      SizeNone(ss);
      UntouchedSelf(pages, top);
      while i > 0
        invariant 0 <= i <= |ss| && pages.Keys == old(pages).Keys && Size(ss[i..]) <= top - base
        invariant sp == top - Size(ss[i..]) && Placed(pages, ss[i..], at, top) && Untouched(old(pages), pages, sp, top)
      {
        i := i - 1;
        ghost var later := ss[i + 1..];
        SizeNext(ss, i);
        SizeTail(ss, i);
        var text := ss[i] + [0];
        sp := sp - |text|;
        if sp < base {
          return false, sp, at;
        }
        ghost var before := pages;
        StillMapped(old(pages), pages, base, top, sp, |text|);
        var _ := WriteTo(sp, text);
        CStringStored(before, pages, sp, ss[i]);
        PlacedKept(before, pages, sp, text, later, at, top);
        PlacedNext(pages, ss, i, sp, at, top);
        UntouchedMore(old(pages), before, pages, sp, text, top);
        at := [sp] + at;
      }
      assert ss[0..] == ss;
      ok := true;
    }

    /** The environment strings, then the argument strings below them. */
    method PlaceStrings(argv: seq<seq<Byte>>, envp: seq<seq<Byte>>, top: nat, base: nat)
      returns (ok: bool, low: nat, argvAt: seq<nat>, envpAt: seq<nat>)
      requires base <= top && Mapped(pages, base, top) && Size(argv) + Size(envp) <= top
      modifies this`pages
      ensures pages.Keys == old(pages).Keys
      ensures ok <==> Size(argv) + Size(envp) <= top - base
      ensures ok ==> low == top - Size(envp) - Size(argv) && Untouched(old(pages), pages, low, top)
      ensures ok ==> Placed(pages, envp, envpAt, top) && Placed(pages, argv, argvAt, top - Size(envp))
    {
      hide Size, Mapped, Placed, Untouched;
      argvAt := [];
      ghost var p0 := pages;
      var mid;
      ok, mid, envpAt := PushStrings(envp, top, base);
      low := mid;
      if !ok {
        return;
      }
      ghost var p1 := pages;
      MappedBelow(p0, p1, base, top, mid);
      ok, low, argvAt := PushStrings(argv, mid, base);
      if !ok {
        return;
      }
      PlacedBelow(p1, pages, envp, envpAt, top, low);
      UntouchedJoin(p0, p1, pages, mid, top, low);
    }

    /** The frame, below the strings. */
    method PlaceFrame(argv: seq<seq<Byte>>, argvAt: seq<nat>, envp: seq<seq<Byte>>, envpAt: seq<nat>, sp: nat, top: nat)
      requires top < U64 && Size(argv) + Size(envp) <= top
      requires sp + 8 * FrameWords(argv, envp) <= top - Size(envp) - Size(argv)
      requires Placed(pages, envp, envpAt, top) && Placed(pages, argv, argvAt, top - Size(envp))
      requires Mapped(pages, sp, top)
      modifies this`pages
      ensures pages.Keys == old(pages).Keys && Laid(pages, sp, argv, argvAt, envp, envpAt, top)
      ensures Untouched(old(pages), pages, sp, top - Size(envp) - Size(argv))
    {
      hide Stored, Size, Words, Mapped, Placed, Untouched, Laid;
      var frame := Frame(argvAt, envpAt);
      ghost var before := pages;
      PlacedCount(before, argv, argvAt, top - Size(envp));
      PlacedCount(before, envp, envpAt, top);
      StillMapped(before, before, sp, top, sp, 8 * |frame|);
      var _ := WriteTo(sp, Words(frame));
      PlacedKept(before, pages, sp, Words(frame), argv, argvAt, top - Size(envp));
      PlacedKept(before, pages, sp, Words(frame), envp, envpAt, top);
      FrameStored(before, pages, sp, argv, argvAt, envp, envpAt, top);
      UntouchedSelf(before, top - Size(envp) - Size(argv));
      UntouchedFrame(before, before, pages, sp, Words(frame), top - Size(envp) - Size(argv),
          top - Size(envp) - Size(argv));
    }

    /** `elf64_setup_initial_stack` once the stack pages are mapped: `aslr` pages below the fixed
        top.  `noVectors` and `noFrame` say that the kmalloc of a pointer array, or of the frame, fails. */
    method Setup(argv: seq<seq<Byte>>, envp: seq<seq<Byte>>, aslr: nat, noVectors: bool, noFrame: bool)
      returns (err: Err, sp: nat, argvAt: seq<nat>, envpAt: seq<nat>)
      requires aslr < ASLR_PAGES && Size(argv) + Size(envp) + 8 * FrameWords(argv, envp) < 0x4000_0000
      requires Mapped(pages, Top(aslr) - STACK_SIZE, Top(aslr))
      modifies this`pages
      ensures pages.Keys == old(pages).Keys
      ensures err == Ok ==> sp % 16 == 0 && Laid(pages, sp, argv, argvAt, envp, envpAt, Top(aslr))
      ensures err == Ok ==> Top(aslr) - STACK_SIZE <= sp && Untouched(old(pages), pages, sp, Top(aslr))
      ensures var noMemory := noVectors && (argv != [] || envp != []);
        && (err == E2BIG <==> !noMemory && !Fits(argv, envp, aslr))
        && (err == ENOMEM <==> noMemory || (noFrame && Fits(argv, envp, aslr)))
      ensures err in {Ok, E2BIG, ENOMEM}
    {
      hide Size, Mapped, Placed, Untouched, Laid, FrameAt;
      sp, argvAt, envpAt := 0, [], [];
      if noVectors && (argv != [] || envp != []) {
        return ENOMEM, sp, argvAt, envpAt;
      }
      var top := Top(aslr);
      var base := top - STACK_SIZE;
      ghost var p0 := pages;
      var ok;
      ok, sp, argvAt, envpAt := PlaceStrings(argv, envp, top, base);
      if !ok {
        return E2BIG, sp, argvAt, envpAt;
      }
      ghost var p1, low := pages, sp;
      sp := FrameAt(sp, FrameWords(argv, envp));
      if sp < base {
        return E2BIG, sp, argvAt, envpAt;
      }
      if noFrame {
        return ENOMEM, sp, argvAt, envpAt;
      }
      StillMapped(p0, p1, base, top, sp, top - sp);
      PlaceFrame(argv, argvAt, envp, envpAt, sp, top);
      UntouchedJoin(p0, p1, pages, low, top, sp);
      err := Ok;
    }
  }
}
