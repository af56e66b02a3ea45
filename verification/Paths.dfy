/** Lexical path normalisation (kernel/fs/vfs.c:335-405). */
module Paths {
  import opened Base

  const PATH_MAX: nat := 256
  const NAME_MAX: nat := 64

  /** The length of the leading run without a slash. */
  function Word(p: string): (n: nat)
    ensures n <= |p|
    ensures forall i :: 0 <= i < n ==> p[i] != '/'
    ensures n < |p| ==> p[n] == '/'
  {
    if p == "" || p[0] == '/' then 0 else 1 + Word(p[1..])
  }

  /** The non-empty components of a path. */
  function Components(p: string): seq<string>
    decreases |p|
  {
    if p == "" then []
    else if p[0] == '/' then Components(p[1..])
    else [p[..Word(p)]] + Components(p[Word(p)..])
  }

  /** "/" for the empty stack, else every name preceded by a slash. */
  function Join(stack: seq<string>): string {
    if stack == [] then "/" else Tail(stack)
  }

  function Tail(stack: seq<string>): (s: string)
    ensures stack != [] ==> |s| > 0 && s[0] == '/'
  {
    if stack == [] then "" else Tail(stack[..|stack| - 1]) + "/" + stack[|stack| - 1]
  }

  /** Folding components over a stack: "." stays, ".." pops, a name is pushed; None when a name or
      the joined path becomes too long. */
  function Fold(stack: seq<string>, comps: seq<string>): Option<seq<string>>
    decreases |comps|
  {
    if comps == [] then Some(stack)
    else if |comps[0]| >= NAME_MAX then None
    else if comps[0] == "." then Fold(stack, comps[1..])
    else if comps[0] == ".." then Fold(if stack == [] then [] else stack[..|stack| - 1], comps[1..])
    else if |Join(stack + [comps[0]])| >= PATH_MAX then None
    else Fold(stack + [comps[0]], comps[1..])
  }

  /** A proper name: not empty, no slash, neither "." nor "..", and short enough. */
  predicate Name(c: string) {
    0 < |c| < NAME_MAX && '/' !in c && c != "." && c != ".."
  }

  ghost predicate Names(stack: seq<string>) {
    (forall i :: 0 <= i < |stack| ==> Name(stack[i])) && |Join(stack)| < PATH_MAX
  }

  lemma TailPush(stack: seq<string>, c: string)
    ensures Tail(stack + [c]) == Tail(stack) + "/" + c
  {
    assert (stack + [c])[..|stack|] == stack;
  }

  /** `skip_slash`, as positions in the path. */
  method SkipSlash(p: string, pos: nat) returns (q: nat)
    requires pos <= |p|
    ensures pos <= q <= |p| && (q < |p| ==> p[q] != '/')
    ensures Components(p[q..]) == Components(p[pos..])
  {
    q := pos;
    while q < |p| && p[q] == '/'
      invariant pos <= q <= |p| && Components(p[q..]) == Components(p[pos..])
    {
      assert p[q..][1..] == p[q + 1..];
      q := q + 1;
    }
  }

  datatype Step = End | TooLong | Got(name: string, next: nat)

  /** `next_component` with a name buffer of `max` bytes. */
  method NextComponent(p: string, pos: nat, max: nat) returns (r: Step)
    requires pos <= |p| && max > 0
    ensures match r
      case End => Components(p[pos..]) == []
      case TooLong => Components(p[pos..]) != [] && |Components(p[pos..])[0]| >= max
      case Got(name, next) =>
        && pos < next <= |p| && 0 < |name| < max && '/' !in name
        && Components(p[pos..]) == [name] + Components(p[next..])
  {
    hide Components, Word;
    var q := SkipSlash(p, pos);
    ghost var rest := p[q..];
    NoComponents();
    if q == |p| {
      assert rest == "";
      return End;
    }
    ghost var n := Word(rest);
    FirstWord(rest);
    var i := 0;
    while q + i < |p| && p[q + i] != '/'
      invariant 0 <= i <= n && (max > i || i == 0)
    {
      assert rest[i] == p[q + i];
      if i >= max - 1 {
        return TooLong;
      }
      i := i + 1;
    }
    var name := p[q..q + i];
    assert rest[..n] == name && rest[n..] == p[q + i..];
    r := Got(name, q + i);
  }

  lemma NoComponents()
    ensures Components("") == []
  {
  }

  /** Up to the next slash or the end. */
  lemma FirstWord(s: string)
    requires s != "" && s[0] != '/'
    ensures var n := Word(s);
      && 0 < n <= |s| && '/' !in s[..n] && (n < |s| ==> s[n] == '/')
      && Components(s) == [s[..n]] + Components(s[n..])
  {
  }

  lemma PopTail(stack: seq<string>)
    requires stack != []
    ensures var c := stack[|stack| - 1];
      Tail(stack) == Tail(stack[..|stack| - 1]) + "/" + c
  {
  }

  /** Dropping the last component of the buffer: back to its slash, and past it unless it is the
      leading one. */
  method PopComponent(out: array<char>, len: nat, ghost stack: seq<string>) returns (n: nat)
    requires 0 < len <= out.Length && out[..len] == Join(stack) && Names(stack)
    ensures 0 < n <= len && out[..n] == Join(if stack == [] then [] else stack[..|stack| - 1])
  {
    n := len;
    ghost var base := if stack == [] then 0 else |Tail(stack[..|stack| - 1])|;
    if stack != [] {
      PopTail(stack);
      LastName(out[..len], stack);
      assert out[base] == '/';
    }
    while n > 1 && out[n - 1] != '/'
      invariant base < n <= len
    {
      n := n - 1;
    }
    if stack != [] {
      SlashAt(out[..len], stack, n);
    }
    if n > 1 {
      n := n - 1;
    }
    assert out[..n] == out[..len][..n];
  }

  lemma LastName(s: string, stack: seq<string>)
    requires stack != [] && s == Join(stack) && Names(stack)
    ensures var base := |Tail(stack[..|stack| - 1])|;
      && base + 1 < |s| && s[base] == '/' && forall k :: base < k < |s| ==> s[k] != '/'
  {
    PopTail(stack);
    var c := stack[|stack| - 1];
    assert Name(c);
    var base := |Tail(stack[..|stack| - 1])|;
    assert s == Tail(stack[..|stack| - 1]) + "/" + c;
    forall k | base < k < |s| ensures s[k] != '/' {
      assert s[k] == c[k - base - 1];
    }
  }

  lemma SlashAt(s: string, stack: seq<string>, n: nat)
    requires stack != [] && s == Join(stack) && Names(stack) && 0 < n <= |s|
    requires |Tail(stack[..|stack| - 1])| < n && (n == 1 || s[n - 1] == '/')
    ensures n == |Tail(stack[..|stack| - 1])| + 1
    ensures s[..if n > 1 then n - 1 else n] == Join(stack[..|stack| - 1])
  {
    LastName(s, stack);
    PopTail(stack);
    var init := stack[..|stack| - 1];
    assert s[..|Tail(init)|] == Tail(init);
    if init == [] {
      assert s[..1] == "/";
    }
  }

  /** Appending a name to the buffer. */
  method PushComponent(out: array<char>, len: nat, c: string, ghost stack: seq<string>) returns (n: nat)
    requires PATH_MAX <= out.Length && 0 < len <= out.Length && out[..len] == Join(stack) && Names(stack)
    requires Name(c) && |Join(stack + [c])| < PATH_MAX
    modifies out
    ensures n == |Join(stack + [c])| && n <= out.Length && out[..n] == Join(stack + [c])
  {
    hide Names, Name, Tail;
    JoinPush(stack, c);
    ghost var before := out[..len];
    n := len;
    if len != 1 {
      out[n] := '/';
      n := n + 1;
    }
    assert out[..n] == if stack == [] then "/" else Join(stack) + "/";
    ghost var head := out[..n];
    forall i | 0 <= i < |c| {
      out[n + i] := c[i];
    }
    assert out[..n + |c|] == head + c;
    n := n + |c|;
  }

  lemma JoinPush(stack: seq<string>, c: string)
    requires Names(stack)
    ensures Join(stack + [c]) == (if stack == [] then "/" else Join(stack) + "/") + c
    ensures |Join(stack)| == 1 <==> stack == []
  {
    TailPush(stack, c);
    if stack != [] {
      PopTail(stack);
      assert Name(stack[|stack| - 1]);
    } else {
      assert Tail(stack) == "";
    }
  }

  lemma NamesPush(stack: seq<string>, c: string)
    requires Names(stack) && Name(c) && |Join(stack + [c])| < PATH_MAX
    ensures Names(stack + [c])
  {
  }

  lemma NamesPop(stack: seq<string>)
    requires Names(stack) && stack != []
    ensures Names(stack[..|stack| - 1])
  {
    PopTail(stack);
  }

  /** `normalize_path`: the fold of the components, joined, in a buffer never written past
      PATH_MAX. */
  method Normalize(p: string, out: array<char>) returns (err: Err, len: nat)
    requires out.Length >= PATH_MAX
    modifies out
    ensures p == "" || p[0] != '/' ==> err == EINVAL
    ensures p != "" && p[0] == '/' ==> match Fold([], Components(p))
      case None => err == ENAMETOOLONG
      case Some(stack) => err == Ok && Names(stack) && len < PATH_MAX && out[..len] == Join(stack) && out[len] == '\0'
  {
    hide Components, Join, Tail, Word;
    len := 0;
    if p == "" || p[0] != '/' {
      return EINVAL, len;
    }
    out[0] := '/';
    len := 1;
    var pos := 0;
    ghost var stack: seq<string> := [];
    RootPath();
    assert p[0..] == p && out[..1] == "/";
    while true
      invariant 0 <= pos <= |p| && 0 < len <= out.Length && Names(stack) && out[..len] == Join(stack)
      invariant Fold([], Components(p)) == Fold(stack, Components(p[pos..]))
      decreases |p| - pos
    {
      var step := NextComponent(p, pos, NAME_MAX);
      match step {
        case End =>
          assert |out[..len]| == len;
          out[len] := '\0';
          return Ok, len;
        case TooLong =>
          return ENAMETOOLONG, len;
        case Got(c, next) =>
          FoldStep(stack, c, Components(p[next..]));
          pos := next;
          if c == "." {
            continue;
          }
          if c == ".." {
            len := PopComponent(out, len, stack);
            if stack != [] {
              NamesPop(stack);
              stack := stack[..|stack| - 1];
            }
            continue;
          }
          JoinPush(stack, c);
          assert |out[..len]| == len;
          var need := (if len == 1 then 0 else 1) + |c|;
          if len + need + 1 > PATH_MAX {
            return ENAMETOOLONG, len;
          }
          len := PushComponent(out, len, c, stack);
          NamesPush(stack, c);
          stack := stack + [c];
      }
    }
  }

  lemma RootPath()
    ensures Join([]) == "/" && Names([])
  {
  }

  lemma FoldStep(stack: seq<string>, c: string, rest: seq<string>)
    requires |c| < NAME_MAX
    ensures Fold(stack, [c] + rest) ==
      if c == "." then Fold(stack, rest)
      else if c == ".." then Fold(if stack == [] then [] else stack[..|stack| - 1], rest)
      else if |Join(stack + [c])| >= PATH_MAX then None
      else Fold(stack + [c], rest)
  {
    assert ([c] + rest)[1..] == rest;
  }

  // ------------------------------------------------------------------------
  // The result is normal, and normalising it again changes nothing
  // ------------------------------------------------------------------------

  lemma {:induction false} ComponentNames(p: string)
    ensures forall i :: 0 <= i < |Components(p)| ==> 0 < |Components(p)[i]| && '/' !in Components(p)[i]
    decreases |p|
  {
    if p != "" {
      if p[0] == '/' {
        ComponentNames(p[1..]);
      } else {
        ComponentNames(p[Word(p)..]);
        assert forall k :: 0 <= k < Word(p) ==> p[..Word(p)][k] == p[k];
      }
    }
  }

  lemma {:induction false} FoldNames(stack: seq<string>, comps: seq<string>)
    requires Names(stack) && forall i :: 0 <= i < |comps| ==> 0 < |comps[i]| && '/' !in comps[i]
    ensures Fold(stack, comps).Some? ==> Names(Fold(stack, comps).value)
    decreases |comps|
  {
    if comps != [] && |comps[0]| < NAME_MAX {
      var c, rest := comps[0], comps[1..];
      assert forall i :: 0 <= i < |rest| ==> rest[i] == comps[i + 1];
      if c == "." {
        FoldNames(stack, rest);
      } else if c == ".." {
        if stack != [] {
          NamesPop(stack);
        }
        FoldNames(if stack == [] then [] else stack[..|stack| - 1], rest);
      } else if |Join(stack + [c])| < PATH_MAX {
        NamesPush(stack, c);
        FoldNames(stack + [c], rest);
      }
    }
  }

  lemma WordOf(a: string, b: string)
    requires b == "" || b[0] == '/'
    ensures Word(a + b) == if Word(a) == |a| then |a| else Word(a)
    decreases |a|
  {
    if a == "" {
      assert a + b == b;
    } else {
      assert (a + b)[1..] == a[1..] + b;
      WordOf(a[1..], b);
    }
  }

  lemma {:induction false} ComponentsAppend(a: string, c: string)
    requires Name(c)
    ensures Components(a + "/" + c) == Components(a) + [c]
    decreases |a|
  {
    var tail := "/" + c;
    assert a + "/" + c == a + tail;
    if a == "" {
      assert a + tail == tail && tail[1..] == c;
      assert Word(c) == |c| by {
        assert forall k :: 0 <= k < |c| ==> c[k] in c;
      }
      assert c[|c|..] == "" && c[..|c|] == c;
    } else if a[0] == '/' {
      assert (a + tail)[1..] == a[1..] + "/" + c;
      ComponentsAppend(a[1..], c);
    } else {
      var n := Word(a);
      WordOf(a, tail);
      assert (a + tail)[..n] == a[..n] && (a + tail)[n..] == a[n..] + "/" + c;
      ComponentsAppend(a[n..], c);
      assert Components(a) == [a[..n]] + Components(a[n..]);
    }
  }

  lemma {:induction false} ComponentsTail(stack: seq<string>)
    requires forall i :: 0 <= i < |stack| ==> Name(stack[i])
    ensures Components(Tail(stack)) == stack
  {
    if stack != [] {
      var init, c := stack[..|stack| - 1], stack[|stack| - 1];
      ComponentsTail(init);
      ComponentsAppend(Tail(init), c);
      assert init + [c] == stack;
    }
  }

  lemma {:induction false} FoldPlain(done: seq<string>, rest: seq<string>)
    requires Names(done + rest)
    ensures Fold(done, rest) == Some(done + rest)
    decreases |rest|
  {
    if rest == [] {
      assert done + rest == done;
    } else {
      var c := rest[0];
      assert (done + rest)[|done|] == c;
      assert done + [c] + rest[1..] == done + rest;
      FoldPlain(done + [c], rest[1..]);
      JoinPrefix(done + [c], rest[1..]);
    }
  }

  lemma {:induction false} JoinPrefix(a: seq<string>, b: seq<string>)
    requires a != []
    ensures |Join(a)| <= |Join(a + b)|
    decreases |b|
  {
    if b != [] {
      JoinPrefix(a, b[..|b| - 1]);
      assert (a + b)[..|a + b| - 1] == a + b[..|b| - 1];
    } else {
      assert a + b == a;
    }
  }

  /** A normalised path is absolute, its components are proper names, and normalising it gives
      itself. */
  lemma Idempotent(p: string)
    requires Fold([], Components(p)).Some?
    ensures var stack := Fold([], Components(p)).value;
      && Names(stack) && Components(Join(stack)) == stack
      && Join(stack) != "" && Join(stack)[0] == '/'
      && Fold([], Components(Join(stack))) == Some(stack)
  {
    ComponentNames(p);
    RootPath();
    FoldNames([], Components(p));
    var stack := Fold([], Components(p)).value;
    ComponentsTail(stack);
    assert [] + stack == stack;
    FoldPlain([], stack);
    assert Components("/") == Components("/"[1..]);
  }
}
