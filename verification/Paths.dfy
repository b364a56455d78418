/** Path resolution of sys/disk/file_system.c. shorten_path rewrites a NUL-terminated buffer in place;
    its meaning is a stack of components. */
module Paths {
  const NUL := '\0'
  const SLASH := '/'
  const DOT := "."
  const DOTDOT := ".."

  // ----- Components -----

  /** The parts between slashes; "a//b" has an empty one in the middle. */
  function Split(s: string): (cs: seq<string>)
    ensures cs != []
  {
    if s == "" then [""]
    else Prepend(s[0], Split(s[1..]))
  }

  /** One more character in front. */
  function Prepend(c: char, cs: seq<string>): (r: seq<string>)
    requires cs != []
    ensures r != []
  {
    if c == SLASH then [""] + cs else [[c] + cs[0]] + cs[1..]
  }

  function Join(cs: seq<string>): (s: string)
    requires cs != []
  {
    if |cs| == 1 then cs[0] else cs[0] + [SLASH] + Join(cs[1..])
  }

  /** A component: no slash and no terminator. */
  ghost predicate Part(c: string) {
    SLASH !in c && NUL !in c
  }

  ghost predicate Parts(cs: seq<string>) {
    forall k {:trigger cs[k]} :: 0 <= k < |cs| ==> Part(cs[k])
  }

  lemma {:induction false} JoinSplit(s: string)
    requires NUL !in s
    ensures Join(Split(s)) == s && Parts(Split(s))
  {
    if s != "" {
      var cs := Split(s[1..]);
      JoinSplit(s[1..]);
      if s[0] == SLASH {
        assert ([""] + cs)[1..] == cs;
        assert s == [SLASH] + s[1..];
      } else {
        var cs' := [[s[0]] + cs[0]] + cs[1..];
        assert cs'[1..] == cs[1..];
        assert s == [s[0]] + s[1..];
        assert Part(cs[0]);
        if |cs| > 1 { assert Join(cs') == [s[0]] + (cs[0] + [SLASH] + Join(cs[1..])); }
      }
    }
  }

  /** Splitting a path at a slash splits its components. */
  lemma {:induction false} SplitAppend(s: string, t: string)
    ensures Split(s + [SLASH] + t) == Split(s) + Split(t)
  {
    var u := s + [SLASH] + t;
    if s == "" {
      assert u == [SLASH] + t && u[1..] == t;
    } else {
      SplitAppend(s[1..], t);
      assert u[1..] == s[1..] + [SLASH] + t;
      PrependAppend(s[0], Split(s[1..]), Split(t));
    }
  }

  lemma PrependAppend(c: char, cs: seq<string>, ds: seq<string>)
    requires cs != []
    ensures Prepend(c, cs + ds) == Prepend(c, cs) + ds
  {
  }

  /** The text of a stack: every component with a slash behind it. */
  function Slashed(stack: seq<string>): (s: string)
    ensures |s| > 0 && s[|s| - 1] == SLASH
  {
    if stack == [] then [SLASH] else Slashed(stack[..|stack| - 1]) + stack[|stack| - 1] + [SLASH]
  }

  lemma {:induction false} SlashedIsJoin(stack: seq<string>, c: string)
    ensures Slashed(stack) + c == [SLASH] + Join(stack + [c])
    decreases |stack|
  {
    if stack != [] {
      var n := |stack| - 1;
      var front, last := stack[..n], stack[n];
      SlashedIsJoin(front, last);
      JoinAppend(front + [last], [c]);
      assert stack == front + [last];
    }
  }

  lemma {:induction false} JoinAppend(cs: seq<string>, ds: seq<string>)
    requires cs != [] && ds != []
    ensures Join(cs + ds) == Join(cs) + [SLASH] + Join(ds)
  {
    if |cs| > 1 {
      JoinAppend(cs[1..], ds);
      assert (cs + ds)[1..] == cs[1..] + ds;
    } else {
      assert (cs + ds)[1..] == ds;
    }
  }

  // ----- What a path means -----

  /** Component-stack resolution: "." and empty components stay where they are, ".." goes up, a name
      goes down. */
  function Resolve(stack: seq<string>, cs: seq<string>): seq<string>
    decreases |cs|
  {
    if cs == [] then stack
    else if cs[0] == DOT || cs[0] == "" then Resolve(stack, cs[1..])
    else if cs[0] == DOTDOT then Resolve(if stack == [] then [] else stack[..|stack| - 1], cs[1..])
    else Resolve(stack + [cs[0]], cs[1..])
  }

  /** The components that are not empty. */
  function Clean(cs: seq<string>): (r: seq<string>)
    ensures |r| <= |cs|
  {
    if cs == [] then [] else Clean(cs[..|cs| - 1]) + (if cs[|cs| - 1] == "" then [] else [cs[|cs| - 1]])
  }

  lemma CleanPush(stack: seq<string>, c: string)
    ensures Clean(stack + [c]) == Clean(stack) + if c == "" then [] else [c]
  {
    assert (stack + [c])[..|stack|] == stack;
  }

  // ----- What shorten_path does with the components -----

  /** A component that shorten_path can take for what it is: only "." and ".." end in a dot. */
  ghost predicate Clear(c: string) {
    c == DOT || c == DOTDOT || c == "" || c[|c| - 1] != '.'
  }

  ghost predicate AllClear(cs: seq<string>) {
    forall k {:trigger cs[k]} :: 0 <= k < |cs| ==> Clear(cs[k])
  }

  /** The run over the components. After a "." has been taken out, the component in its place is
      only looked at for "..": a second "." stays. A ".." at the end leaves a trailing slash. After a
      ".." above the root has been taken out, the component in its place is not looked at. */
  ghost function Run(stack: seq<string>, cs: seq<string>, seen: bool): (r: seq<string>)
    requires cs != []
    ensures r != []
    decreases |cs|, 1
  {
    if cs[0] == DOT && !seen && |cs| > 1 then Run(stack, cs[1..], true)
    else if cs[0] == DOTDOT && stack != [] then
      var up := stack[..|stack| - 1];
      if |cs| == 1 then up + [""] else Run(up, cs[1..], false)
    else if cs[0] == DOTDOT && |cs| > 1 then Down([], cs[1..])
    else Down(stack, cs)
  }

  ghost function Down(stack: seq<string>, cs: seq<string>): (r: seq<string>)
    requires cs != []
    ensures r != []
    decreases |cs|, 0
  {
    if |cs| == 1 then stack + [cs[0]] else Run(stack + [cs[0]], cs[1..], false)
  }

  /** The run does not end on a "." that is looked at, nor on a ".." above the root (depth is the height
      of the stack); there the kernel goes on behind the end of the string. */
  ghost predicate Sound(depth: nat, cs: seq<string>, seen: bool)
    requires cs != []
    decreases |cs|, 1
  {
    if cs[0] == DOT && !seen then |cs| > 1 && Sound(depth, cs[1..], true)
    else if cs[0] == DOTDOT && depth > 0 then |cs| == 1 || Sound(depth - 1, cs[1..], false)
    else if cs[0] == DOTDOT then |cs| > 1 && SoundDown(0, cs[1..])
    else SoundDown(depth, cs)
  }

  ghost predicate SoundDown(depth: nat, cs: seq<string>)
    requires cs != []
    decreases |cs|, 0
  {
    |cs| == 1 || Sound(depth + 1, cs[1..], false)
  }

  /** Somewhere a ".." above the root is followed by a "." or "..": the kernel then takes the second
      character of that component for its first. */
  ghost predicate Strays(depth: nat, cs: seq<string>, seen: bool)
    requires cs != []
    decreases |cs|, 1
  {
    if cs[0] == DOT && !seen then |cs| > 1 && Strays(depth, cs[1..], true)
    else if cs[0] == DOTDOT && depth > 0 then |cs| > 1 && Strays(depth - 1, cs[1..], false)
    else if cs[0] == DOTDOT then |cs| > 1 && (cs[1] == DOT || cs[1] == DOTDOT || StraysDown(0, cs[1..]))
    else StraysDown(depth, cs)
  }

  ghost predicate StraysDown(depth: nat, cs: seq<string>)
    requires cs != []
    decreases |cs|, 0
  {
    |cs| > 1 && Strays(depth + 1, cs[1..], false)
  }

  // ----- What shorten_path does with the text -----

  /** What is left of the text; or the loop goes on behind the end of the string and finds a "." there:
      it then copies from behind the next terminator. */
  datatype Outcome = Text(s: string) | PastEnd

  /** s without what is between the two positions. */
  function Cut(s: string, dest: nat, src: nat): string
    requires dest <= src <= |s|
  {
    s[..dest] + s[src..]
  }

  /** The last slash at or before j, or -1. */
  function SlashBefore(s: string, j: int): (r: int)
    requires j < |s|
    ensures r == -1 || (0 <= r <= j && s[r] == SLASH)
    ensures forall x :: 0 <= x <= j && r < x ==> s[x] != SLASH
    decreases j + 1
  {
    if j < 0 then -1 else if s[j] == SLASH then j else SlashBefore(s, j - 1)
  }

  /** ".." and the end of a component. */
  predicate UpAt(s: string, i: nat)
    requires i < |s|
  {
    s[i] == '.' && i + 1 < |s| && s[i + 1] == '.' && (i + 2 == |s| || s[i + 2] == SLASH)
  }

  /** shorten_path's loop from index i on, for every text. */
  function Shorten(s: string, i: nat): Outcome
    requires i <= |s|
    decreases |s| - i, 1
  {
    if i == |s| then Text(s)
    else if s[i] == '.' && i + 1 == |s| then PastEnd
    else if s[i] == '.' && s[i + 1] == SLASH then
      var t := Cut(s, i, i + 2);
      if i == |t| then Text(t) else Second(t, i)
    else Second(s, i)
  }

  /** The second test and what follows. */
  function Second(s: string, i: nat): Outcome
    requires i < |s|
    decreases |s| - i, 0
  {
    if !UpAt(s, i) then Shorten(s, i + 1)
    else
      var j := SlashBefore(s, i - 2);
      if j < 0 then
        if i + 2 == |s| then PastEnd
        else
          var t := Cut(s, i, i + 3);
          if i == |t| then Text(t) else Shorten(t, i + 1)
      else if i + 2 == |s| then Shorten(s[..j + 1], j + 1)
      else Shorten(Cut(s, j + 1, i + 3), j + 1)
  }

  // ----- The buffer -----

  /** The buffer holds string s, terminated. */
  ghost predicate Holds(a: array<char>, s: string)
    reads a
  {
    |s| < a.Length && a[..|s|] == s && a[|s|] == NUL && NUL !in s
  }

  /** The buffer after i characters have been moved from src to dest. */
  ghost function Moved(was: seq<char>, dest: nat, src: nat, i: nat): (r: seq<char>)
    requires dest <= src && src + i <= |was|
    ensures |r| == |was|
  {
    was[..dest] + was[src..src + i] + was[dest + i..]
  }

  lemma MoveOne(was: seq<char>, dest: nat, src: nat, i: nat)
    requires dest <= src && src + i < |was|
    ensures Moved(was, dest, src, i)[src + i] == was[src + i]
    ensures Moved(was, dest, src, i)[dest + i := was[src + i]] == Moved(was, dest, src, i + 1)
  {
    assert was[src..src + i + 1] == was[src..src + i] + [was[src + i]];
  }

  /** str_collapse; the text from src on ends at e. */
  method StrCollapse(a: array<char>, dest: nat, src: nat, ghost e: nat)
    requires dest <= src <= e < a.Length && a[e] == NUL && forall x :: src <= x < e ==> a[x] != NUL
    modifies a
    ensures a[..] == Moved(old(a[..]), dest, src, e - src)[dest + (e - src) := NUL]
  {
    ghost var was := a[..];
    var i := 0;
    assert Moved(was, dest, src, 0) == was;
    while a[src + i] != NUL
      invariant src + i <= e && a[..] == Moved(was, dest, src, i)
      decreases e - i
    {
      MoveOne(was, dest, src, i);
      assert a[src + i] == a[..][src + i] == was[src + i];
      a[dest + i] := a[src + i];
      i := i + 1;
    }
    MoveOne(was, dest, src, i);
    assert a[src + i] == a[..][src + i] == was[src + i];
    a[dest + i] := NUL;
  }

  lemma CutMoved(was: seq<char>, now: seq<char>, s: string, dest: nat, src: nat)
    requires dest <= src <= |s| < |was| && was[..|s|] == s
    requires now == Moved(was, dest, src, |s| - src)[dest + (|s| - src) := NUL]
    ensures |Cut(s, dest, src)| == dest + (|s| - src) && now[..|Cut(s, dest, src)|] == Cut(s, dest, src) && now[|Cut(s, dest, src)|] == NUL
    ensures forall x :: dest + (|s| - src) < x < |was| ==> now[x] == was[x]
  {
    var n := |s| - src;
    assert was[..dest] == s[..dest] && was[src..src + n] == s[src..];
    assert now[..dest + n] == Moved(was, dest, src, n)[..dest + n];
  }

  /** str_collapse inside the string. */
  method CutText(a: array<char>, dest: nat, src: nat, ghost s: string)
    requires Holds(a, s) && dest <= src <= |s|
    modifies a
    ensures Holds(a, Cut(s, dest, src))
    ensures forall x :: dest + (|s| - src) < x < a.Length ==> a[x] == old(a[x])
  {
    ghost var was := a[..];
    assert forall x :: 0 <= x < |s| ==> a[x] == s[x];
    StrCollapse(a, dest, src, |s|);
    CutMoved(was, a[..], s, dest, src);
    assert a[..|Cut(s, dest, src)|] == a[..][..|Cut(s, dest, src)|];
    assert forall c :: c in Cut(s, dest, src) ==> c in s;
  }

  /** The search for the slash before the previous component. */
  method PreviousSlash(a: array<char>, i: nat, ghost s: string) returns (j: int)
    requires Holds(a, s) && i <= |s|
    ensures i > 0 ==> j == SlashBefore(s, i - 2)
    ensures i == 0 ==> j == -2
  {
    j := i - 2;
    while j >= 0
      invariant -2 <= j <= i - 2 && (i > 0 ==> -1 <= j && SlashBefore(s, i - 2) == SlashBefore(s, j))
    {
      assert a[j] == s[j];
      if a[j] == SLASH { break; }
      j := j - 1;
    }
  }

  lemma InBuffer(a: array<char>, s: string, i: nat)
    requires Holds(a, s) && i <= |s|
    ensures a[i] == if i < |s| then s[i] else NUL
    ensures i < |s| ==> s[i] != NUL
  {
  }

  /** Where the loop is: inside the string s, or in what is left in the buffer behind its end. */
  datatype Pos = Inside(s: string) | Behind(s: string)

  ghost predicate Going(a: array<char>, p: Pos, i: nat, goal: Outcome)
    reads a
  {
    && Holds(a, p.s) && i < a.Length && p.s != "" && p.s[0] == SLASH
    && match p
       case Inside(s) => i <= |s| && Shorten(s, i) == goal
       case Behind(s) => |s| < i <= |s| + 3 && LeftOver(a, i, s, goal)
  }

  /** What may be left behind the string: nothing, "/", "./" or ".". */
  ghost predicate LeftOver(a: array<char>, i: nat, s: string, goal: Outcome)
    requires i < a.Length
    reads a
  {
    || (a[i] == NUL && goal == Text(s))
    || (i + 1 < a.Length && a[i] == SLASH && a[i + 1] == NUL && i <= |s| + 2 && goal == Text(s))
    || (i + 2 < a.Length && a[i] == '.' && a[i + 1] == SLASH && a[i + 2] == NUL && i == |s| + 1 && goal == Text(s))
    || (i + 1 < a.Length && a[i] == '.' && a[i + 1] == NUL && goal == PastEnd)
  }

  /** Between the two tests. */
  ghost predicate Tested(a: array<char>, p: Pos, i: nat, goal: Outcome)
    reads a
  {
    && Holds(a, p.s) && i < a.Length && p.s != "" && p.s[0] == SLASH
    && match p
       case Inside(s) => i < |s| && Second(s, i) == goal
       case Behind(s) => (
         && |s| <= i <= |s| + 2 && i + 1 < a.Length && goal == Text(s) && a[i] != '.'
         && (a[i + 1] == NUL || (i + 2 < a.Length && i <= |s| + 1 && a[i + 1] == SLASH && a[i + 2] == NUL)))
  }

  /** The first test of the loop. The kernel reads on behind the end if a "." is the last character. */
  method FirstTest(a: array<char>, i: nat, ghost p: Pos, ghost goal: Outcome) returns (past: bool, ghost p': Pos)
    requires Going(a, p, i, goal) && a[i] != NUL
    modifies a
    ensures past ==> goal == PastEnd
    ensures !past ==> Tested(a, p', i, goal) && |p'.s| <= |p.s|
  {
    past, p' := false, p;
    if p.Inside? {
      InBuffer(a, p.s, i);
      InBuffer(a, p.s, i + 1);
    }
    if a[i] == '.' && (a[i + 1] == SLASH || a[i + 1] == NUL) {
      if a[i + 1] == NUL { return true, p; }
      if p.Inside? {
        ghost var t := Cut(p.s, i, i + 2);
        p' := if i == |t| then Behind(t) else Inside(t);
      }
      TakeDot(a, i, p);
    }
  }

  /** str_collapse over "./", inside the string or behind its end. */
  method TakeDot(a: array<char>, i: nat, ghost p: Pos)
    requires Holds(a, p.s) && i + 2 < a.Length && a[i] == '.' && a[i + 1] == SLASH
    requires if p.Inside? then i + 2 <= |p.s| else i > |p.s| && a[i + 2] == NUL
    modifies a
    ensures p.Inside? ==> Holds(a, Cut(p.s, i, i + 2)) && a[|p.s| - 1] == old(a[|p.s| - 1]) && a[|p.s|] == NUL
    ensures p.Behind? ==> Holds(a, p.s) && a[i] == NUL && a[i + 1] == SLASH && a[i + 2] == NUL
  {
    ghost var was, s, e := a[..], p.s, if p.Inside? then |p.s| else i + 2;
    assert forall x :: 0 <= x < |s| ==> a[x] == s[x];
    StrCollapse(a, i, i + 2, e);
    if p.Inside? {
      CutMoved(was, a[..], s, i, i + 2);
      assert a[..|Cut(s, i, i + 2)|] == a[..][..|Cut(s, i, i + 2)|];
      assert forall c :: c in Cut(s, i, i + 2) ==> c in s;
    } else {
      assert a[..] == was[i := NUL];
      assert a[..|s|] == a[..][..|s|];
    }
  }

  /** The second test, and the increment. */
  method SecondTest(a: array<char>, i: nat, ghost p: Pos, ghost goal: Outcome) returns (i': nat, ghost p': Pos)
    requires Tested(a, p, i, goal)
    modifies a
    ensures Going(a, p', i', goal) && |p'.s| - i' < |p.s| - i
  {
    if p.Inside? {
      InBuffer(a, p.s, i);
      InBuffer(a, p.s, i + 1);
      if i + 2 <= |p.s| { InBuffer(a, p.s, i + 2); }
    }
    if a[i] == '.' && a[i + 1] == '.' && (a[i + 2] == SLASH || a[i + 2] == NUL) {
      i', p' := TakeUp(a, i, p.s, goal);
    } else {
      i', p' := i + 1, p;
    }
  }

  /** The body of the second test, and the increment. */
  method TakeUp(a: array<char>, i: nat, ghost s: string, ghost goal: Outcome) returns (i': nat, ghost p': Pos)
    requires Holds(a, s) && i < |s| && s[0] == SLASH && UpAt(s, i) && Second(s, i) == goal
    modifies a
    ensures Going(a, p', i', goal) && |p'.s| - i' < |s| - i
  {
    var j := PreviousSlash(a, i, s);
    InBuffer(a, s, i + 2);
    if j < 0 {
      i' := i + 1;
      if a[i + 2] != NUL {
        ghost var t := Cut(s, i, i + 3);
        InBuffer(a, s, i + 1);
        CutText(a, i, i + 3, s);
        p' := if i == |t| then Behind(t) else Inside(t);
      } else {
        InBuffer(a, s, i + 1);
        EndHere(a, s, i);
        a[i] := NUL;
        assert a[..i] == s[..i];
        p' := Behind(s[..i]);
      }
    } else {
      i' := j + 1;
      if a[i + 2] != NUL {
        CutText(a, j + 1, i + 3, s);
        p' := Inside(Cut(s, j + 1, i + 3));
      } else {
        EndHere(a, s, j + 1);
        a[j + 1] := NUL;
        assert a[..j + 1] == s[..j + 1];
        p' := Inside(s[..j + 1]);
      }
    }
  }

  lemma EndHere(a: array<char>, s: string, n: nat)
    requires Holds(a, s) && n <= |s|
    ensures a[..n] == s[..n] && NUL !in s[..n]
  {
    assert a[..|s|][..n] == a[..n];
    assert forall c :: c in s[..n] ==> c in s;
  }

  /** shorten_path, for every absolute path: the text that Shorten gives, in place; `past` if the kernel
      reads on behind the end. */
  method ShortenPath(a: array<char>, ghost path: string) returns (past: bool)
    requires Holds(a, [SLASH] + path)
    modifies a
    ensures past <==> Shorten([SLASH] + path, 0).PastEnd?
    ensures !past ==> Holds(a, Shorten([SLASH] + path, 0).s)
  {
    ghost var goal := Shorten([SLASH] + path, 0);
    ghost var p := Inside([SLASH] + path);
    var i: nat := 0;
    past := false;
    while a[i] != NUL
      invariant Going(a, p, i, goal)
      decreases |p.s| + 4 - i
    {
      past, p := FirstTest(a, i, p, goal);
      if past { return; }
      i, p := SecondTest(a, i, p, goal);
    }
    if p.Inside? && i < |p.s| { InBuffer(a, p.s, i); }
  }

  // ----- The text and the components -----

  /** Index i of s is at offset k of the first component in cs; the components in stack are done. */
  ghost predicate Located(s: string, stack: seq<string>, cs: seq<string>, k: nat, i: nat) {
    && cs != [] && Parts(cs) && Parts(stack) && AllClear(cs) && k <= |cs[0]|
    && s == Slashed(stack) + Join(cs) && i == |Slashed(stack)| + k
  }

  lemma CharAt(s: string, stack: seq<string>, cs: seq<string>, k: nat, i: nat)
    requires Located(s, stack, cs, k, i)
    ensures i <= |s| && (i < |s| <==> k < |cs[0]| || |cs| > 1)
    ensures i < |s| ==> s[i] == if k < |cs[0]| then cs[0][k] else SLASH
    ensures k < |cs[0]| ==> cs[0][k] != SLASH && cs[0][k] != NUL
  {
  }

  /** Inside a component that goes on the stack. */
  ghost predicate Passing(cs: seq<string>, k: nat)
    requires cs != []
  {
    k > 0 ==> cs[0] != DOTDOT && (cs[0] == DOT ==> k == 1)
  }

  /** What the run over the components leaves as text. */
  ghost function RunText(stack: seq<string>, cs: seq<string>, seen: bool): Outcome
    requires cs != []
  {
    if Sound(|stack|, cs, seen) then Text([SLASH] + Join(Run(stack, cs, seen))) else PastEnd
  }

  ghost function DownText(stack: seq<string>, cs: seq<string>): Outcome
    requires cs != []
  {
    if SoundDown(|stack|, cs) then Text([SLASH] + Join(Down(stack, cs))) else PastEnd
  }

  ghost function TextAt(stack: seq<string>, cs: seq<string>, k: nat, seen: bool): Outcome
    requires cs != []
  {
    if k == 0 then RunText(stack, cs, seen) else DownText(stack, cs)
  }

  ghost predicate StraysAt(stack: seq<string>, cs: seq<string>, k: nat, seen: bool)
    requires cs != []
  {
    if k == 0 then Strays(|stack|, cs, seen) else StraysDown(|stack|, cs)
  }

  /** Facts for the tests at a position inside the string. */
  lemma Tests(s: string, stack: seq<string>, cs: seq<string>, k: nat, i: nat)
    requires Located(s, stack, cs, k, i) && i < |s| && Passing(cs, k)
    ensures s[i] == '.' && (i + 1 == |s| || s[i + 1] == SLASH) <==> k == 0 && cs[0] == DOT
    ensures UpAt(s, i) <==> k == 0 && cs[0] == DOTDOT
  {
  }

  /** Taking out "./" in front of the rest. */
  lemma DotRemoved(s: string, stack: seq<string>, cs: seq<string>, i: nat)
    requires Located(s, stack, cs, 0, i) && cs[0] == DOT
    ensures i + 1 <= |s| && (i + 1 == |s| <==> |cs| == 1)
    ensures |cs| > 1 ==> i + 2 <= |s| && s[i + 1] == SLASH && Located(Cut(s, i, i + 2), stack, cs[1..], 0, i)
    ensures |cs| > 1 ==> (cs[1..] == [""] <==> i + 2 == |s|)
  {
  }

  /** The component before "..", and the slash before that. */
  lemma SlashFound(s: string, stack: seq<string>, cs: seq<string>, i: nat)
    requires Located(s, stack, cs, 0, i) && stack != [] && i <= |s|
    ensures i >= 2 && SlashBefore(s, i - 2) == |Slashed(stack[..|stack| - 1])| - 1
  {
    var up, last := stack[..|stack| - 1], stack[|stack| - 1];
    var p := Slashed(up);
    assert Slashed(stack) == p + last + [SLASH] && Part(last);
    assert s[..i] == p + last + [SLASH];
    assert forall x :: 0 <= x < i ==> s[x] == (p + last + [SLASH])[x];
    assert s[|p| - 1] == SLASH;
    assert forall x :: |p| <= x <= i - 2 ==> s[x] == last[x - |p|];
  }

  /** Taking out "name/../" or "name/..". */
  lemma DotDotRemoved(s: string, stack: seq<string>, cs: seq<string>, i: nat)
    requires Located(s, stack, cs, 0, i) && cs[0] == DOTDOT && stack != []
    ensures i + 2 <= |s| && (i + 2 == |s| <==> |cs| == 1)
    ensures var up := stack[..|stack| - 1];
      && |Slashed(up)| <= i && s[..|Slashed(up)|] == Slashed(up) && Parts(up)
      && (|cs| > 1 ==> i + 3 <= |s| && Located(Cut(s, |Slashed(up)|, i + 3), up, cs[1..], 0, |Slashed(up)|))
  {
  }

  /** Taking out "../" above the root. */
  lemma ClimbRemoved(s: string, cs: seq<string>, i: nat)
    requires Located(s, [], cs, 0, i) && cs[0] == DOTDOT
    ensures i == 1 && 3 <= |s| && (|s| == 3 <==> |cs| == 1)
    ensures |cs| > 1 ==> |s| >= 4 && Located(Cut(s, 1, 4), [], cs[1..], 0, 1) && (|s| == 4 <==> cs[1..] == [""])
  {
  }

  lemma OverSlash(s: string, stack: seq<string>, cs: seq<string>, i: nat)
    requires cs != [] && |cs| > 1 && Located(s, stack, cs, |cs[0]|, i)
    ensures Located(s, stack + [cs[0]], cs[1..], 0, i + 1)
  {
  }

  /** Nothing special about this component: it goes on the stack. */
  lemma GoesDown(stack: seq<string>, cs: seq<string>, seen: bool)
    requires cs != [] && cs[0] != DOTDOT && (cs[0] == DOT ==> seen)
    ensures RunText(stack, cs, seen) == DownText(stack, cs) && (Strays(|stack|, cs, seen) <==> StraysDown(|stack|, cs))
  {
  }

  /** At the end of the string the run is over. */
  lemma Finished(s: string, stack: seq<string>, cs: seq<string>, k: nat, i: nat, seen: bool)
    requires Located(s, stack, cs, k, i) && i == |s|
    ensures Text(s) == TextAt(stack, cs, k, seen)
  {
    CharAt(s, stack, cs, k, i);
    SlashedIsJoin(stack, cs[0]);
    assert |DOT| == 1 && |DOTDOT| == 2;
    if k == 0 { GoesDown(stack, cs, seen); }
  }

  /** On the loop's text the loop does what the run does on its components. */
  lemma {:induction false} ShortenRuns(s: string, stack: seq<string>, cs: seq<string>, k: nat, i: nat)
    requires Located(s, stack, cs, k, i) && Passing(cs, k) && !StraysAt(stack, cs, k, false)
    ensures i <= |s| && Shorten(s, i) == TextAt(stack, cs, k, false)
    decreases |s| - i, 1
  {
    CharAt(s, stack, cs, k, i);
    if i == |s| {
      Finished(s, stack, cs, k, i, false);
    } else {
      Tests(s, stack, cs, k, i);
      if k == 0 && cs[0] == DOT {
        DotRemoved(s, stack, cs, i);
        if |cs| > 1 {
          var t := Cut(s, i, i + 2);
          if i == |t| {
            Finished(t, stack, cs[1..], 0, i, true);
          } else {
            SecondRuns(t, stack, cs[1..], 0, i, true);
          }
        }
      } else {
        SecondRuns(s, stack, cs, k, i, false);
      }
    }
  }

  lemma {:induction false} SecondRuns(s: string, stack: seq<string>, cs: seq<string>, k: nat, i: nat, seen: bool)
    requires Located(s, stack, cs, k, i) && i < |s| && Passing(cs, k) && !StraysAt(stack, cs, k, seen) && (k == 0 && cs[0] == DOT ==> seen)
    ensures Second(s, i) == TextAt(stack, cs, k, seen)
    decreases |s| - i, 0
  {
    CharAt(s, stack, cs, k, i);
    Tests(s, stack, cs, k, i);
    if k == 0 && cs[0] == DOTDOT {
      if stack != [] { UpRuns(s, stack, cs, i, seen); } else { ClimbRuns(s, cs, i, seen); }
    } else {
      if k == 0 { GoesDown(stack, cs, seen); }
      if k < |cs[0]| {
        ShortenRuns(s, stack, cs, k + 1, i + 1);
      } else {
        OverSlash(s, stack, cs, i);
        assert |stack + [cs[0]]| == |stack| + 1;
        ShortenRuns(s, stack + [cs[0]], cs[1..], 0, i + 1);
      }
    }
  }

  lemma {:induction false} UpRuns(s: string, stack: seq<string>, cs: seq<string>, i: nat, seen: bool)
    requires Located(s, stack, cs, 0, i) && i < |s| && stack != [] && cs[0] == DOTDOT && UpAt(s, i) && !Strays(|stack|, cs, seen)
    ensures Second(s, i) == RunText(stack, cs, seen)
    decreases |s| - i, 0, 0
  {
    var up := stack[..|stack| - 1];
    var j := |Slashed(up)| - 1;
    SlashFound(s, stack, cs, i);
    DotDotRemoved(s, stack, cs, i);
    SecondUp(s, i, j);
    if |cs| > 1 {
      UpText(stack, up, cs, seen);
      ShortenRuns(Cut(s, j + 1, i + 3), up, cs[1..], 0, j + 1);
    } else {
      UpLast(s, stack, up, cs, j, seen);
    }
  }

  lemma SecondUp(s: string, i: nat, j: nat)
    requires i < |s| && UpAt(s, i) && SlashBefore(s, i - 2) == j
    ensures i + 2 == |s| ==> Second(s, i) == Shorten(s[..j + 1], j + 1)
    ensures i + 2 < |s| ==> Second(s, i) == Shorten(Cut(s, j + 1, i + 3), j + 1)
  {
  }

  lemma UpText(stack: seq<string>, up: seq<string>, cs: seq<string>, seen: bool)
    requires |cs| > 1 && cs[0] == DOTDOT && stack != [] && up == stack[..|stack| - 1]
    ensures RunText(stack, cs, seen) == RunText(up, cs[1..], false) && (Strays(|stack|, cs, seen) <==> Strays(|up|, cs[1..], false))
  {
    assert |DOT| == 1 && |DOTDOT| == 2;
  }

  lemma UpLast(s: string, stack: seq<string>, up: seq<string>, cs: seq<string>, j: nat, seen: bool)
    requires |cs| == 1 && cs[0] == DOTDOT && stack != [] && up == stack[..|stack| - 1] && j + 1 == |Slashed(up)| <= |s| && s[..j + 1] == Slashed(up)
    ensures Shorten(s[..j + 1], j + 1) == RunText(stack, cs, seen)
  {
    assert |DOT| == 1 && |DOTDOT| == 2;
    SlashedIsJoin(up, "");
    assert Slashed(up) + "" == s[..j + 1];
  }

  lemma {:induction false} ClimbRuns(s: string, cs: seq<string>, i: nat, seen: bool)
    requires Located(s, [], cs, 0, i) && i < |s| && cs[0] == DOTDOT && UpAt(s, i) && !Strays(0, cs, seen)
    ensures Second(s, i) == RunText([], cs, seen)
    decreases |s| - i, 0, 0
  {
    ClimbRemoved(s, cs, i);
    assert |DOT| == 1 && |DOTDOT| == 2;
    if |cs| > 1 {
      var t, rest := Cut(s, 1, 4), cs[1..];
      CharAt(t, [], rest, 0, 1);
      if |t| == 1 {
        Finished(t, [], rest, 0, 1, false);
      } else if rest[0] == "" {
        OverSlash(t, [], rest, 1);
        assert [] + [rest[0]] == [""] && |[""]| == 1;
        ShortenRuns(t, [""], rest[1..], 0, 2);
        assert RunText([""], rest[1..], false) == DownText([], rest);
      } else {
        ShortenRuns(t, [], rest, 1, 2);
      }
    }
  }

  /** What shorten_path leaves of a path whose names do not end in a dot and that does not stray. */
  lemma ShortenIsRun(path: string)
    requires NUL !in path && AllClear(Split(path)) && !Strays(0, Split(path), false)
    ensures Shorten([SLASH] + path, 0) == RunText([], Split(path), false)
  {
    var s := [SLASH] + path;
    JoinSplit(path);
    assert Shorten(s, 0) == Shorten(s, 1);
    assert Slashed([]) == [SLASH];
    ShortenRuns(s, [], Split(path), 0, 1);
  }

  // ----- The run against the meaning -----

  /** No ".." climbs above the root. */
  ghost predicate StaysBelow(depth: nat, cs: seq<string>)
    decreases |cs|
  {
    if cs == [] then true
    else if cs[0] == DOT || cs[0] == "" then StaysBelow(depth, cs[1..])
    else if cs[0] == DOTDOT then depth > 0 && StaysBelow(depth - 1, cs[1..])
    else StaysBelow(depth + 1, cs[1..])
  }

  ghost predicate NoDotPairs(cs: seq<string>) {
    forall k {:trigger cs[k]} :: 0 <= k < |cs| - 1 ==> !(cs[k] == DOT && cs[k + 1] == DOT)
  }

  /** Every ".." goes back over a name: what is on top of the stack then is not an empty component. */
  ghost predicate PopsNames(stack: seq<string>, cs: seq<string>, seen: bool)
    requires cs != []
    decreases |cs|
  {
    if cs[0] == DOT && !seen && |cs| > 1 then PopsNames(stack, cs[1..], true)
    else if cs[0] == DOTDOT && stack != [] then
      stack[|stack| - 1] != "" && (|cs| == 1 || PopsNames(stack[..|stack| - 1], cs[1..], false))
    else if cs[0] == DOTDOT then |cs| == 1 || PopsNames([], cs[1..], false)
    else |cs| == 1 || PopsNames(stack + [cs[0]], cs[1..], false)
  }

  /** A name goes on the stack whether it is looked at or not. */
  lemma NextGoesDown(stack: seq<string>, cs: seq<string>)
    requires cs != [] && cs[0] != DOT && cs[0] != DOTDOT
    ensures Run(stack, cs, false) == Down(stack, cs) && (Sound(|stack|, cs, false) <==> SoundDown(|stack|, cs))
    ensures Strays(|stack|, cs, false) <==> StraysDown(|stack|, cs)
  {
  }

  /** Without dot pairs and empty components to go back over, the names left are the meaning. */
  lemma {:induction false} RunIsResolve(stack: seq<string>, cs: seq<string>, seen: bool)
    requires cs != [] && Sound(|stack|, cs, seen) && NoDotPairs(cs) && (seen ==> cs[0] != DOT) && PopsNames(stack, cs, seen)
    requires !Strays(|stack|, cs, seen)
    ensures Clean(Run(stack, cs, seen)) == Resolve(Clean(stack), cs)
    decreases |cs|
  {
    var rest := cs[1..];
    assert forall k :: 0 <= k < |rest| ==> rest[k] == cs[k + 1];
    CleanPush(stack, cs[0]);
    if cs[0] == DOT {
      assert rest[0] != DOT;
      RunIsResolve(stack, rest, true);
    } else if cs[0] == DOTDOT && stack == [] {
      NextGoesDown([], rest);
      RunIsResolve([], rest, false);
    } else if cs[0] == DOTDOT {
      var up := stack[..|stack| - 1];
      assert Clean(stack) == Clean(up) + [stack[|stack| - 1]];
      assert Clean(stack)[..|Clean(stack)| - 1] == Clean(up);
      CleanPush(up, "");
      if |cs| > 1 { RunIsResolve(up, rest, false); } else { assert rest == []; }
    } else {
      assert |stack + [cs[0]]| == |stack| + 1;
      assert cs[0] == "" ==> Clean(stack + [cs[0]]) == Clean(stack);
      if |cs| > 1 { RunIsResolve(stack + [cs[0]], rest, false); } else { assert rest == []; }
    }
  }

  /** Every "." that stays, and every empty component that ".." goes back over, makes the result one
      name too long. */
  lemma {:induction false} RunIsLonger(stack: seq<string>, up: seq<string>, cs: seq<string>, seen: bool)
    requires cs != [] && Sound(|stack|, cs, seen) && StaysBelow(|up|, cs) && |up| <= |Clean(stack)|
    ensures |Clean(Run(stack, cs, seen))| >= |Resolve(up, cs)| + (|Clean(stack)| - |up|)
    ensures !NoDotPairs(cs) || (seen && cs[0] == DOT) || !PopsNames(stack, cs, seen) ==>
              |Clean(Run(stack, cs, seen))| > |Resolve(up, cs)| + (|Clean(stack)| - |up|)
    decreases |cs|
  {
    var rest := cs[1..];
    if |cs| > 1 { PairsSplit(cs); }
    CleanPush(stack, cs[0]);
    if cs[0] == DOT && !seen {
      RunIsLonger(stack, up, rest, true);
    } else if cs[0] == DOTDOT {
      LongerUp(stack, up, cs, seen);
    } else {
      assert |stack + [cs[0]]| == |stack| + 1;
      var up' := if cs[0] == DOT || cs[0] == "" then up else up + [cs[0]];
      if |cs| > 1 { RunIsLonger(stack + [cs[0]], up', rest, false); } else { assert rest == [] && Resolve(up', rest) == up'; }
    }
  }

  lemma {:induction false} LongerUp(stack: seq<string>, up: seq<string>, cs: seq<string>, seen: bool)
    requires cs != [] && cs[0] == DOTDOT && Sound(|stack|, cs, seen) && StaysBelow(|up|, cs) && |up| <= |Clean(stack)|
    ensures |Clean(Run(stack, cs, seen))| >= |Resolve(up, cs)| + (|Clean(stack)| - |up|)
    ensures !NoDotPairs(cs) || !PopsNames(stack, cs, seen) ==> |Clean(Run(stack, cs, seen))| > |Resolve(up, cs)| + (|Clean(stack)| - |up|)
    decreases |cs|, 0
  {
    assert stack != [];
    var rest, n := cs[1..], |stack| - 1;
    var below, up' := stack[..n], up[..|up| - 1];
    assert Clean(stack) == Clean(below) + if stack[n] == "" then [] else [stack[n]];
    CleanPush(below, "");
    if |cs| > 1 {
      PairsSplit(cs);
      RunIsLonger(below, up', rest, false);
    } else {
      assert rest == [] && Resolve(up', rest) == up';
    }
  }

  lemma PairsSplit(cs: seq<string>)
    requires |cs| > 1
    ensures NoDotPairs(cs) <==> NoDotPairs(cs[1..]) && !(cs[0] == DOT && cs[1] == DOT)
  {
    var rest := cs[1..];
    assert forall k :: 0 <= k < |rest| ==> rest[k] == cs[k + 1];
    assert forall k :: 1 <= k < |cs| ==> cs[k] == rest[k - 1];
  }

  /** A path that stays below the root does not stray. */
  lemma {:induction false} BelowNeverStrays(stack: seq<string>, up: seq<string>, cs: seq<string>, seen: bool)
    requires cs != [] && StaysBelow(|up|, cs) && |up| <= |stack|
    ensures !Strays(|stack|, cs, seen)
    decreases |cs|
  {
    if |cs| > 1 {
      var rest := cs[1..];
      if cs[0] == DOT && !seen {
        BelowNeverStrays(stack, up, rest, true);
      } else if cs[0] == DOTDOT {
        BelowNeverStrays(stack[..|stack| - 1], up[..|up| - 1], rest, false);
      } else {
        BelowNeverStrays(stack + [cs[0]], if cs[0] == DOT || cs[0] == "" then up else up + [cs[0]], rest, false);
      }
    }
  }

  /** shorten_path resolves a path exactly if no two "." follow each other and no ".." goes back over
      an empty component. */
  lemma ShortenResolvesIff(cs: seq<string>)
    requires cs != [] && Sound(0, cs, false) && StaysBelow(0, cs)
    ensures Clean(Run([], cs, false)) == Resolve([], cs) <==> NoDotPairs(cs) && PopsNames([], cs, false)
  {
    if NoDotPairs(cs) && PopsNames([], cs, false) {
      BelowNeverStrays([], [], cs, false);
      RunIsResolve([], cs, false);
    } else {
      RunIsLonger([], [], cs, false);
    }
  }

  /** Behind a name x, "././y" keeps a ".". */
  lemma DotPairExample(x: string, y: string)
    requires x != "" && y != DOT && y != DOTDOT && y != ""
    ensures Run([x], [DOT, DOT, y], false) == [x, DOT, y] && Resolve([x], [DOT, DOT, y]) == [x, y]
  {
    assert [DOT, DOT, y][1..] == [DOT, y] && [DOT, y][1..] == [y] && [y][1..] == [];
    assert |DOT| == 1 && |DOTDOT| == 2;
    assert Run([x], [DOT, DOT, y], false) == Run([x], [DOT, y], true);
    assert Run([x], [DOT, y], true) == Down([x], [DOT, y]) == Run([x] + [DOT], [y], false);
    assert Run([x] + [DOT], [y], false) == Down([x] + [DOT], [y]) == [x, DOT, y];
    assert Resolve([x], [DOT, DOT, y]) == Resolve([x], [DOT, y]) == Resolve([x], [y]) == Resolve([x] + [y], []);
  }

  /** Behind a name x, "/../y" (as in "/x//../y") goes back over the empty component and keeps x. */
  lemma EmptyPopExample(x: string, y: string)
    requires x != "" && y != DOT && y != DOTDOT && y != ""
    ensures Run([x], ["", DOTDOT, y], false) == [x, y] && Resolve([x], ["", DOTDOT, y]) == [y]
  {
    assert ["", DOTDOT, y][1..] == [DOTDOT, y] && [DOTDOT, y][1..] == [y] && [y][1..] == [];
    assert |DOT| == 1 && |DOTDOT| == 2 && |""| == 0;
    assert ([x] + [""])[..1] == [x] && [x][..0] == [];
    assert Run([x], ["", DOTDOT, y], false) == Down([x], ["", DOTDOT, y]) == Run([x] + [""], [DOTDOT, y], false) == Run([x], [y], false);
    assert Run([x], [y], false) == Down([x], [y]) == [x, y];
    assert Resolve([x], ["", DOTDOT, y]) == Resolve([x], [DOTDOT, y]) == Resolve([], [y]) == Resolve([] + [y], []);
  }

  lemma {:induction false} SplitPart(c: string)
    requires SLASH !in c
    ensures Split(c) == [c]
  {
    if c != "" {
      SplitPart(c[1..]);
      assert [c[0]] + c[1..] == c;
    }
  }

  lemma {:induction false} SplitJoin(cs: seq<string>)
    requires cs != [] && Parts(cs)
    ensures Split(Join(cs)) == cs
  {
    assert Part(cs[0]);
    SplitPart(cs[0]);
    if |cs| > 1 {
      var rest := cs[1..];
      assert forall k :: 0 <= k < |rest| ==> rest[k] == cs[k + 1];
      SplitJoin(rest);
      SplitAppend(cs[0], Join(rest));
      assert [cs[0]] + rest == cs;
    } else {
      assert cs == [cs[0]];
    }
  }

  lemma {:induction false} RunParts(stack: seq<string>, cs: seq<string>, seen: bool)
    requires cs != [] && Parts(cs) && Parts(stack)
    ensures Parts(Run(stack, cs, seen))
    decreases |cs|
  {
    var rest := cs[1..];
    assert forall k :: 0 <= k < |rest| ==> rest[k] == cs[k + 1];
    assert Part(cs[0]) && Part("");
    if |cs| > 1 {
      if cs[0] == DOT && !seen {
        RunParts(stack, rest, true);
      } else if cs[0] == DOTDOT && stack != [] {
        RunParts(stack[..|stack| - 1], rest, false);
      } else if cs[0] == DOTDOT {
        assert Part(rest[0]);
        if |rest| > 1 {
          assert forall k :: 0 <= k < |rest[1..]| ==> rest[1..][k] == cs[k + 2];
          RunParts([] + [rest[0]], rest[1..], false);
        }
      } else {
        RunParts(stack + [cs[0]], rest, false);
      }
    }
  }

  ghost predicate NoEmpties(cs: seq<string>) {
    forall k {:trigger cs[k]} :: 0 <= k < |cs| ==> cs[k] != ""
  }

  /** A path that ends in ".." gets a trailing slash. */
  ghost function Trail(cs: seq<string>): seq<string>
    requires cs != []
  {
    if cs[|cs| - 1] == DOTDOT then [""] else []
  }

  /** If there are no empty components, what is left is the meaning to the letter. */
  lemma {:induction false} RunIsExact(stack: seq<string>, cs: seq<string>, seen: bool)
    requires cs != [] && Sound(|stack|, cs, seen) && NoDotPairs(cs) && NoEmpties(cs) && (seen ==> cs[0] != DOT)
    requires !Strays(|stack|, cs, seen)
    ensures Run(stack, cs, seen) == Resolve(stack, cs) + Trail(cs)
    decreases |cs|
  {
    var rest := cs[1..];
    assert forall k :: 0 <= k < |rest| ==> rest[k] == cs[k + 1];
    if |cs| == 1 {
      assert rest == [];
    } else {
      assert rest[|rest| - 1] == cs[|cs| - 1];
      if cs[0] == DOT {
        assert rest[0] != DOT;
        RunIsExact(stack, rest, true);
      } else if cs[0] == DOTDOT && stack == [] {
        NextGoesDown([], rest);
        RunIsExact([], rest, false);
      } else if cs[0] == DOTDOT {
        RunIsExact(stack[..|stack| - 1], rest, false);
      } else {
        assert |stack + [cs[0]]| == |stack| + 1;
        RunIsExact(stack + [cs[0]], rest, false);
      }
    }
  }

  /** The path s means the components cs. */
  ghost predicate Means(s: string, cs: seq<string>) {
    s != "" && s[0] == SLASH && Clean(Split(s[1..])) == Resolve([], cs)
  }

  /** When the text that shorten_path leaves means the path it was given: exactly without dot pairs and
      empty components that a ".." goes back over, if the path stays below the root. And what that text
      is, if there are no empty components. */
  ghost predicate ResolvedIff(s: string, cs: seq<string>)
    requires cs != []
  {
    && (StaysBelow(0, cs) ==> (Means(s, cs) <==> NoDotPairs(cs) && PopsNames([], cs, false)))
    && (NoDotPairs(cs) && PopsNames([], cs, false) ==> Means(s, cs))
    && (NoDotPairs(cs) && NoEmpties(cs) ==> var r := Resolve([], cs) + Trail(cs); r != [] && s == [SLASH] + Join(r))
  }

  lemma RunMeans(cs: seq<string>)
    requires cs != [] && Parts(cs) && Sound(0, cs, false) && !Strays(0, cs, false)
    ensures ResolvedIff([SLASH] + Join(Run([], cs, false)), cs)
  {
    var run := Run([], cs, false);
    RunParts([], cs, false);
    SplitJoin(run);
    var s := [SLASH] + Join(run);
    assert s[1..] == Join(run);
    if StaysBelow(0, cs) { ShortenResolvesIff(cs); }
    if NoDotPairs(cs) && PopsNames([], cs, false) { RunIsResolve([], cs, false); }
    if NoDotPairs(cs) && NoEmpties(cs) { RunIsExact([], cs, false); }
  }

  /** What shorten_path does with a path whose names do not end in a dot and that does not stray: it reads
      past the end exactly if the path ends on a "." that is looked at or a ".." above the root; and
      otherwise when the text it leaves means the path. */
  ghost predicate Understood(r: Outcome, cs: seq<string>)
    requires cs != []
  {
    && (r.PastEnd? <==> !Sound(0, cs, false))
    && (r.Text? ==> r.s == [SLASH] + Join(Run([], cs, false)) && ResolvedIff(r.s, cs))
  }

  lemma ShortenUnderstood(path: string)
    requires NUL !in path && AllClear(Split(path)) && !Strays(0, Split(path), false)
    ensures Understood(Shorten([SLASH] + path, 0), Split(path))
  {
    ShortenIsRun(path);
    JoinSplit(path);
    if Sound(0, Split(path), false) { RunMeans(Split(path)); }
  }

  // ----- Other paths -----

  /** Characters without a special meaning. */
  ghost predicate Dotless(s: string) {
    '.' !in s && SLASH !in s && NUL !in s
  }

  lemma {:induction false} PassOver(s: string, i: nat, n: nat)
    requires i + n <= |s| && '.' !in s[i..i + n]
    ensures Shorten(s, i) == Shorten(s, i + n)
    decreases n
  {
    if n > 0 {
      assert s[i..i + n][0] == s[i];
      assert s[i + 1..i + n] == s[i..i + n][1..];
      assert Shorten(s, i) == Second(s, i) == Shorten(s, i + 1);
      PassOver(s, i + 1, n - 1);
    }
  }

  /** "/x./y" becomes "/xy". */
  lemma DotEndedExample(x: string, y: string)
    requires Dotless(x) && Dotless(y) && x != "" && y != ""
    ensures Shorten("/" + x + "./" + y, 0) == Text("/" + x + y)
    ensures !Means("/" + x + y, [x + ".", y])
  {
    var s, n := "/" + x + "./" + y, 1 + |x|;
    assert s[0..n] == "/" + x && '.' !in s[0..n];
    PassOver(s, 0, n);
    assert Cut(s, n, n + 2) == "/" + x + y;
    var t := "/" + x + y;
    assert t[n] == y[0] && s[n] == '.' && s[n + 1] == SLASH;
    assert Shorten(s, n) == Second(t, n) == Shorten(t, n + 1);
    assert t[n + 1..|t|] == y[1..] && '.' !in t[n + 1..|t|];
    PassOver(t, n + 1, |t| - (n + 1));
    DotEndedMeans(x, y);
  }

  lemma DotEndedMeans(x: string, y: string)
    requires Dotless(x) && Dotless(y) && x != "" && y != ""
    ensures !Means("/" + x + y, [x + ".", y])
  {
    assert ("/" + x + y)[1..] == x + y;
    SplitPart(x + y);
    var n := x + ".";
    assert n[0] == x[0] && n != DOT && n != DOTDOT && y[0] != '.' && y != DOT && y != DOTDOT;
    assert [n, y][1..] == [y] && [y][1..] == [];
    assert Resolve([n], [y]) == Resolve([n] + [y], []);
    assert [] + [n] == [n] && Resolve([], [n, y]) == Resolve([n], [y]);
    assert |Clean([x + y])| <= 1;
  }

  /** "/../../y" becomes "/.y". */
  lemma StrayExample(y: string)
    requires Dotless(y) && y != ""
    ensures Shorten("/../../" + y, 0) == Text("/." + y)
    ensures !Means("/." + y, [DOTDOT, DOTDOT, y])
  {
    var s, t, u := "/../../" + y, "/../" + y, "/." + y;
    PassOver(s, 0, 1);
    assert Cut(s, 1, 4) == t && UpAt(s, 1) && SlashBefore(s, -1) == -1;
    assert Shorten(s, 1) == Second(s, 1) == Shorten(t, 2);
    assert t[2] == '.' && t[3] == SLASH && Cut(t, 2, 4) == u && u[2] == y[0];
    assert Shorten(t, 2) == Second(u, 2) == Shorten(u, 3);
    assert u[3..|u|] == y[1..] && '.' !in u[3..|u|];
    PassOver(u, 3, |u| - 3);
    StrayMeans(y);
  }

  lemma StrayMeans(y: string)
    requires Dotless(y) && y != ""
    ensures !Means("/." + y, [DOTDOT, DOTDOT, y])
  {
    assert ("/." + y)[1..] == "." + y;
    SplitPart("." + y);
    assert y[0] != '.' && y != DOT && y != DOTDOT && |DOT| == 1 && |DOTDOT| == 2;
    assert [DOTDOT, DOTDOT, y][1..] == [DOTDOT, y] && [DOTDOT, y][1..] == [y] && [y][1..] == [];
    assert Resolve([], [y]) == Resolve([] + [y], []) == [y];
    assert Resolve([], [DOTDOT, DOTDOT, y]) == Resolve([], [DOTDOT, y]) == Resolve([], [y]);
    assert Clean(["." + y]) == ["." + y];
  }

  // ----- calculate_path -----

  /** The components of an absolute path, without the empty one behind a trailing slash. */
  ghost function Folder(base: string): seq<string>
    requires base != ""
  {
    if base[|base| - 1] == SLASH then var cs := Split(base[1..]); cs[..|cs| - 1] else Split(base[1..])
  }

  /** The components that a relative path stands for, seen from base. */
  ghost function Wanted(base: string, rel: string): (cs: seq<string>)
    requires base != ""
    ensures cs != []
  {
    if rel != "" && rel[0] == SLASH then Split(rel[1..]) else Folder(base) + Split(rel)
  }

  /** A new zeroed buffer of n bytes with s copied to its start. */
  method Copied(s: string, n: nat) returns (a: array<char>)
    requires |s| < n && NUL !in s
    ensures fresh(a) && Holds(a, s) && a.Length == n
  {
    a := new char[n](i => NUL);
    var k := 0;
    while k < |s|
      invariant k <= |s| && a[..k] == s[..k] && a[|s|] == NUL
    {
      a[k] := s[k];
      assert s[..k + 1] == s[..k] + [s[k]];
      k := k + 1;
    }
  }

  lemma FolderAppend(base: string, rel: string)
    requires base != "" && base[0] == SLASH
    ensures base[|base| - 1] != SLASH ==> Split((base + [SLASH] + rel)[1..]) == Folder(base) + Split(rel)
    ensures base[|base| - 1] == SLASH ==> Split((base + rel)[1..]) == Folder(base) + Split(rel)
  {
    if base[|base| - 1] != SLASH {
      SplitAppend(base[1..], rel);
      assert (base + [SLASH] + rel)[1..] == base[1..] + [SLASH] + rel;
    } else if |base| == 1 {
      assert (base + rel)[1..] == rel && base[1..] == "";
    } else {
      var b := base[1..|base| - 1];
      assert base[1..] == b + [SLASH] + "" && (base + rel)[1..] == b + [SLASH] + rel;
      SplitAppend(b, "");
      SplitAppend(b, rel);
    }
  }

  /** The absolute path that calculate_path builds. */
  function Full(base: string, rel: string): string
    requires base != ""
  {
    if rel != "" && rel[0] == SLASH then rel else if base[|base| - 1] != SLASH then base + [SLASH] + rel else base + rel
  }

  /** calculate_path: base followed by rel, or rel alone if it is absolute, shortened. `past` if the kernel
      reads on behind the end. */
  method CalculatePath(base: string, rel: string) returns (a: array<char>, past: bool)
    requires base != "" && base[0] == SLASH && NUL !in base && NUL !in rel
    ensures fresh(a) && (past <==> Shorten(Full(base, rel), 0).PastEnd?)
    ensures !past ==> Holds(a, Shorten(Full(base, rel), 0).s)
    ensures AllClear(Wanted(base, rel)) && !Strays(0, Wanted(base, rel), false) ==> Understood(Shorten(Full(base, rel), 0), Wanted(base, rel))
  {
    FolderAppend(base, rel);
    if rel != "" && rel[0] == SLASH {
      a, past := Shortened(rel, |rel| + 1);
    } else if base[|base| - 1] != SLASH {
      a, past := Shortened(base + [SLASH] + rel, |base| + |rel| + 2);
    } else {
      a, past := Shortened(base + rel, |base| + |rel| + 1);
    }
    ghost var path := Full(base, rel)[1..];
    assert Full(base, rel) == [SLASH] + path && Split(path) == Wanted(base, rel);
    if AllClear(Wanted(base, rel)) && !Strays(0, Wanted(base, rel), false) {
      assert forall c :: c in path ==> c in base + [SLASH] + rel;
      ShortenUnderstood(path);
    }
  }

  /** A copy of an absolute path in a new buffer of n bytes, shortened. */
  method Shortened(path: string, n: nat) returns (a: array<char>, past: bool)
    requires path != "" && path[0] == SLASH && NUL !in path && n == |path| + 1
    ensures fresh(a) && (past <==> Shorten(path, 0).PastEnd?) && (!past ==> Holds(a, Shorten(path, 0).s))
  {
    a := Copied(path, n);
    assert path == [SLASH] + path[1..];
    past := ShortenPath(a, path[1..]);
  }
}
