/** Path algebra on characters: simplifying a relative path against an absolute one in a buffer, and
    finding the relative path from one absolute path to another. The functions here follow the
    program character by character; the lemmas relate them to stacks of components. */
module Paths {

  const SLASH: char := '/'
  const DOT: char := '.'
  const NUL: char := '\0'
  /** VM_FILE_SYSTEM_MAX_PATH */
  const MAX_PATH: nat := 256

  datatype Outcome = Success(path: string) | Failure | Invalid

  /** Character i of a C string, or its terminator. */
  function At(s: string, i: nat): char { if i < |s| then s[i] else NUL }

  // ----- SimplifyPath, character by character -----

  /** The last slash at or before n, or the start of the buffer. */
  function BackTo(sim: string, n: nat): (m: nat)
    requires n < |sim|
    ensures m <= n && (m == 0 || sim[m] == SLASH)
    ensures forall j :: m < j <= n ==> sim[j] != SLASH
    decreases n
  {
    if n == 0 || sim[n] == SLASH then n else BackTo(sim, n - 1)
  }

  /** ".." applied to the buffer: its new contents, or nothing when it is at the root. */
  function PopChars(sim: string): Outcome {
    if sim == "" then Failure
    else
      var n := |sim| - 1;
      if sim[n] == SLASH && n == 0 then Failure
      else
        var m := BackTo(sim, if sim[n] == SLASH then n - 1 else n);
        Success(sim[..if sim[m] == SLASH then m + 1 else m])
  }

  datatype Copied = Copied(sim: string, rest: string) | TooLong

  /** One entry copied to the buffer, with the slash behind it. */
  function CopyEntry(sim: string, rel: string): (c: Copied)
    ensures c.Copied? && rel != "" ==> |c.rest| < |rel|
    decreases |rel|
  {
    if rel == "" then Copied(sim, rel)
    else if |sim| >= MAX_PATH then TooLong
    else if rel[0] == SLASH then Copied(sim + [SLASH], rel[1..])
    else CopyEntry(sim + [rel[0]], rel[1..])
  }

  function WithSlash(sim: string): string { if sim == "" || sim[|sim| - 1] != SLASH then sim + [SLASH] else sim }

  function Finish(sim: string): Outcome {
    Success(if |sim| > 1 && sim[|sim| - 1] == SLASH then sim[..|sim| - 1] else sim)
  }

  function SimplifyLoop(sim: string, rel: string): Outcome
    decreases |rel|
  {
    if rel == "" then Finish(sim)
    else if rel[0] == DOT && At(rel, 1) == DOT && (At(rel, 2) == NUL || At(rel, 2) == SLASH) then
      var popped := PopChars(sim);
      if popped.Failure? || popped.Invalid? then Failure
      else if At(rel, 2) == NUL || |rel| < 3 then Finish(popped.path)
      else SimplifyLoop(popped.path, rel[3..])
    else if rel[0] == DOT && At(rel, 1) == NUL then Finish(sim)
    else if rel[0] == DOT && At(rel, 1) == SLASH && |rel| > 1 then SimplifyLoop(sim, rel[2..])
    else
      var c := CopyEntry(WithSlash(sim), rel);
      if c.TooLong? then Invalid else SimplifyLoop(c.sim, c.rest)
  }

  function SimplifyPath(abspath: string, relpath: string): Outcome {
    if At(relpath, 0) == SLASH || At(abspath, 0) != SLASH || |abspath| > MAX_PATH then Invalid
    else SimplifyLoop(abspath, relpath)
  }

  // ----- component stacks -----

  predicate NoSlash(c: string) { forall i :: 0 <= i < |c| ==> c[i] != SLASH && c[i] != NUL }

  predicate IsPart(c: string) { c != "" && NoSlash(c) }

  ghost predicate Parts(stack: seq<string>) { forall i :: 0 <= i < |stack| ==> IsPart(stack[i]) }

  function Last<T>(s: seq<T>): T
    requires s != []
  {
    s[|s| - 1]
  }

  function Front<T>(s: seq<T>): seq<T>
    requires s != []
  {
    s[..|s| - 1]
  }

  /** "/a/b/" */
  function Slashed(stack: seq<string>): (r: string)
    ensures r != "" && Last(r) == SLASH
  {
    if stack == [] then [SLASH] else Slashed(Front(stack)) + Last(stack) + [SLASH]
  }

  /** "/a/b", and "/" for the empty stack: the canonical absolute path. */
  function Render(stack: seq<string>): string { if stack == [] then [SLASH] else Slashed(Front(stack)) + Last(stack) }

  /** The first component of a relative path, and what is behind its slash. */
  function Head(rel: string): (h: string)
    ensures |h| <= |rel| && h == rel[..|h|] && (forall i :: 0 <= i < |h| ==> h[i] != SLASH)
    ensures |h| < |rel| ==> rel[|h|] == SLASH
  {
    if rel == "" || rel[0] == SLASH then "" else [rel[0]] + Head(rel[1..])
  }

  function Tail(rel: string): (t: string)
    ensures rel != "" ==> |t| < |rel|
  {
    if |Head(rel)| < |rel| then rel[|Head(rel)| + 1..] else ""
  }

  /** No component is empty; one slash may end the path. */
  predicate Clean(rel: string)
    decreases |rel|
  {
    rel == "" || (Head(rel) != "" && NoSlash(Head(rel)) && Clean(Tail(rel)))
  }

  datatype Walked = At_(stack: seq<string>) | Above | TooDeep

  /** What a relative path means: each component is pushed, "." is skipped, ".." pops. */
  function Walk(stack: seq<string>, rel: string): Walked
    decreases |rel|
  {
    if rel == "" then At_(stack)
    else
      var c := Head(rel);
      if c == "." then Walk(stack, Tail(rel))
      else if c == ".." then if stack == [] then Above else Walk(Front(stack), Tail(rel))
      else if |Slashed(stack)| + |c| + (if |c| < |rel| then 1 else 0) > 256 then TooDeep
      else Walk(stack + [c], Tail(rel))
  }

  function Rendered(w: Walked): Outcome {
    match w case At_(stack) => Success(Render(stack)) case Above => Failure case TooDeep => Invalid
  }

  // ----- the buffer shows the stack -----

  /** The buffer holds the stack's path, with or without a slash at its end. */
  ghost predicate Shows(sim: string, stack: seq<string>) {
    Parts(stack) && (sim == Slashed(stack) || sim == Render(stack))
  }

  lemma PushSlashed(stack: seq<string>, c: string)
    ensures Slashed(stack + [c]) == Slashed(stack) + c + [SLASH] && Render(stack + [c]) == Slashed(stack) + c
  {
    assert Front(stack + [c]) == stack;
  }

  lemma FrontParts(stack: seq<string>)
    requires Parts(stack) && stack != []
    ensures Parts(Front(stack)) && IsPart(Last(stack)) && stack == Front(stack) + [Last(stack)]
  {}

  lemma ShownEnd(sim: string, stack: seq<string>)
    requires Shows(sim, stack)
    ensures sim != "" && WithSlash(sim) == Slashed(stack) && Finish(sim) == Success(Render(stack))
  {
    if stack != [] {
      FrontParts(stack);
      var c := Last(stack);
      assert Last(Slashed(Front(stack)) + c) == Last(c) != SLASH;
      assert Slashed(stack)[..|Slashed(stack)| - 1] == Render(stack);
    }
  }

  lemma BackOver(p: string, c: string, rest: string, n: nat)
    requires p != "" && Last(p) == SLASH && NoSlash(c) && |p| - 1 <= n < |p| + |c|
    ensures BackTo(p + c + rest, n) == |p| - 1
  {
    var sim, m := p + c + rest, BackTo(p + c + rest, n);
    assert sim[|p| - 1] == SLASH;
    assert forall j :: |p| <= j < |p| + |c| ==> sim[j] == c[j - |p|];
  }

  lemma PopLast(p: string, c: string, rest: string)
    requires p != "" && Last(p) == SLASH && IsPart(c) && (rest == "" || rest == [SLASH])
    ensures PopChars(p + c + rest) == Success(p)
  {
    hide BackTo;
    var sim, n := p + c + rest, |p| + |c| - 1;
    assert sim[n] == Last(c) != SLASH;
    BackOver(p, c, rest, n);
    assert sim[|p| - 1] == SLASH && sim[..|p|] == p;
  }

  /** ".." takes the last component off, and fails exactly at the root. */
  lemma PopShown(sim: string, stack: seq<string>)
    requires Shows(sim, stack)
    ensures PopChars(sim) == if stack == [] then Failure else Success(Slashed(Front(stack)))
  {
    if stack != [] {
      hide PopChars;
      FrontParts(stack);
      var p, c := Slashed(Front(stack)), Last(stack);
      assert p + c + "" == p + c;
      PopLast(p, c, if sim == Slashed(stack) then [SLASH] else "");
    }
  }

  lemma {:induction false} CopyIsHead(sim: string, rel: string)
    requires rel != ""
    ensures var h := Head(rel); var slash := |h| < |rel|;
            CopyEntry(sim, rel) ==
              if |sim| + |h| + (if slash then 1 else 0) > MAX_PATH then TooLong
              else Copied(sim + h + (if slash then [SLASH] else ""), Tail(rel))
    decreases |rel|
  {
    if |sim| < MAX_PATH && rel[0] != SLASH {
      if rel[1..] == "" {
        assert rel == [rel[0]] && sim + [rel[0]] == sim + Head(rel) + "";
      } else {
        CopyIsHead(sim + [rel[0]], rel[1..]);
        assert sim + [rel[0]] + Head(rel[1..]) == sim + Head(rel);
      }
    }
  }

  /** The tests for "." and ".." look at characters; they mean the first component. */
  lemma DotsAreHeads(rel: string)
    requires rel != "" && Clean(rel)
    ensures Head(rel) == ".." <==> rel[0] == DOT && At(rel, 1) == DOT && (At(rel, 2) == NUL || At(rel, 2) == SLASH)
    ensures Head(rel) == ".." ==>
              (At(rel, 2) == NUL <==> |rel| == 2) && Tail(rel) == (if |rel| == 2 then "" else rel[3..])
    ensures Head(rel) == "." <==> rel[0] == DOT && (At(rel, 1) == NUL || At(rel, 1) == SLASH)
    ensures Head(rel) == "." ==>
              (At(rel, 1) == NUL <==> |rel| == 1) && Tail(rel) == (if |rel| == 1 then "" else rel[2..])
  {
    var h := Head(rel);
    assert forall i :: 0 <= i < |h| ==> rel[i] == h[i];
    if |h| == 1 { assert h == [rel[0]]; }
    if |h| == 2 { assert h == [rel[0], rel[1]]; }
  }

  lemma PushParts(stack: seq<string>, c: string)
    requires Parts(stack) && IsPart(c)
    ensures Parts(stack + [c])
  {}

  /** On a buffer that shows a stack, the loop computes the walk. */
  lemma {:induction false} LoopWalks(sim: string, stack: seq<string>, rel: string)
    requires Shows(sim, stack) && Clean(rel)
    ensures SimplifyLoop(sim, rel) == Rendered(Walk(stack, rel))
    decreases |rel|, 1
  {
    ShownEnd(sim, stack);
    if rel != "" {
      DotsAreHeads(rel);
      var c := Head(rel);
      if c == ".." {
        PopShown(sim, stack);
        if stack != [] {
          FrontParts(stack);
          ShownEnd(Slashed(Front(stack)), Front(stack));
          LoopWalks(Slashed(Front(stack)), Front(stack), Tail(rel));
        }
      } else if c == "." {
        LoopWalks(sim, stack, Tail(rel));
      } else {
        LoopPushes(sim, stack, rel);
      }
    }
  }

  lemma {:induction false} LoopPushes(sim: string, stack: seq<string>, rel: string)
    requires Shows(sim, stack) && Clean(rel) && rel != "" && Head(rel) != ".." && Head(rel) != "."
    ensures SimplifyLoop(sim, rel) == Rendered(Walk(stack, rel))
    decreases |rel|, 0
  {
    var c, slash := Head(rel), |Head(rel)| < |rel|;
    ShownEnd(sim, stack);
    DotsAreHeads(rel);
    CopyIsHead(Slashed(stack), rel);
    if |Slashed(stack)| + |c| + (if slash then 1 else 0) <= MAX_PATH {
      var sim' := Slashed(stack) + c + (if slash then [SLASH] else "");
      PushSlashed(stack, c);
      PushParts(stack, c);
      assert Slashed(stack) + c + "" == Slashed(stack) + c;
      LoopWalks(sim', stack + [c], Tail(rel));
    }
  }

  /** SimplifyPath computes the component stack: on a canonical absolute path and a relative path
      without empty components it renders the walk, fails exactly when some ".." would pop the
      empty stack, and refuses exactly when a push would not fit. */
  lemma SimplifyRefinesStack(stack: seq<string>, rel: string)
    requires Parts(stack) && |Render(stack)| <= 256 && Clean(rel)
    ensures SimplifyPath(Render(stack), rel) == Rendered(Walk(stack, rel))
  {
    StartsWithSlash(stack);
    if rel != "" { assert rel[0] == Head(rel)[0]; }
    LoopWalks(Render(stack), stack, rel);
  }

  /** With nothing to walk along, one slash at the end is dropped, empty components or not. */
  lemma SlashDropped(abspath: string)
    requires abspath != "" && abspath[0] == '/' && |abspath| < 256
    ensures SimplifyPath(abspath + "/", "") == Success(abspath)
    ensures abspath[|abspath| - 1] != '/' || |abspath| == 1 ==> SimplifyPath(abspath, "") == Success(abspath)
  {
    var sim := abspath + "/";
    assert sim[|sim| - 1] == '/' && sim[..|sim| - 1] == abspath;
  }

  lemma {:induction false} StartsWithSlash(stack: seq<string>)
    ensures Slashed(stack)[0] == SLASH && Render(stack) != "" && Render(stack)[0] == SLASH
  {
    if stack != [] { StartsWithSlash(Front(stack)); }
  }
}
