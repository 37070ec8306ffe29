/** The relative path from one absolute path to another, and the test for a mount point. */
module RelativePaths {
  import opened Paths

  // ----- RelativePath, character by character -----

  /** Where the two paths stop being alike. */
  function MatchEnd(base: string, dest: string, i: nat): (e: nat)
    requires i <= |base|
    ensures i <= e <= |base| && (e < |base| ==> At(dest, e) != base[e])
    ensures forall j :: i <= j < e ==> At(dest, j) == base[j]
    decreases |base| - i
  {
    if i == |base| || At(dest, i) != base[i] then i else MatchEnd(base, dest, i + 1)
  }

  /** The last slash before position e, or -1. */
  function LastSlash(base: string, e: nat): (d: int)
    requires e <= |base|
    ensures -1 <= d < e && (d >= 0 ==> base[d] == SLASH)
    ensures forall j :: d < j < e ==> base[j] != SLASH
  {
    if e == 0 then -1 else if base[e - 1] == SLASH then e - 1 else LastSlash(base, e - 1)
  }

  /** Components that begin at or behind position i. */
  function CountUps(base: string, i: nat): nat
    requires 1 <= i
    decreases |base| - i
  {
    if i >= |base| then 0 else (if base[i - 1] == SLASH then 1 else 0) + CountUps(base, i + 1)
  }

  function CountSlashes(base: string, i: nat): nat
    decreases |base| - i
  {
    if i >= |base| then 0 else (if base[i] == SLASH then 1 else 0) + CountSlashes(base, i + 1)
  }

  function Ups(n: nat): string { if n == 0 then "" else "../" + Ups(n - 1) }

  datatype Status = Ok | Fails | BadParameter

  /** The status, and what was written to the buffer by then. */
  datatype Written = Written(status: Status, text: string)

  /** The rest of the destination, without a slash in front. */
  function Stripped(dest: string): string { if At(dest, 0) == SLASH then dest[1..] else dest }

  /** The end of RelativePath: n times "../" or one "./", then the rest of the destination. At most
      85 times "../" fit. The "./" is not counted. */
  function Emit(n: nat, dest: string): Written {
    var rest := Stripped(dest);
    if n > 85 then Written(BadParameter, Ups(85))
    else
      var start := if n == 0 then "./" else Ups(n);
      if |rest| + 3 * n >= MAX_PATH then Written(BadParameter, start) else Written(Ok, start + rest)
  }

  /** How many directories up, and what is left of the destination from there. */
  datatype Route = NoRoute | Route(ups: nat, down: string)

  function RouteOf(base: string, dest: string): Route {
    var e := MatchEnd(base, dest, 0);
    var d := LastSlash(base, e);
    if e == |base| && (At(dest, e) == SLASH || At(dest, e) == NUL) then Route(0, if e <= |dest| then dest[e..] else "")
    else if d == -1 then
      if At(dest, 0) == SLASH then NoRoute
      else Route(if dest == "" then 0 else 1 + CountSlashes(base, 0), dest)
    else Route(CountUps(base, d + 1), if d <= |dest| then dest[d..] else "")
  }

  function RelativePath(base: string, dest: string): Written {
    var r := RouteOf(base, dest);
    if r.NoRoute? then Written(Fails, "") else Emit(r.ups, r.down)
  }

  // ----- the buffer -----

  /** How many bytes of the caller's buffer are written: the text, and a NUL behind a complete one. */
  function Size(w: Written): nat { |w.text| + if w.status == Ok then 1 else 0 }

  /** The check against the buffer's size leaves out the two characters of "./" and the NUL. So the bytes
      written fit a buffer of 256 bytes exactly if the way leads up, or what is left of the destination
      is shorter than 254, or so long that it is not written. */
  lemma EmitFitsIff(n: nat, dest: string)
    ensures Size(Emit(n, dest)) <= 256 <==> n > 0 || |Stripped(dest)| < 254 || |Stripped(dest)| >= 256
    ensures Size(Emit(n, dest)) <= 258
  {
    UpsStart(n);
    UpsStart(85);
  }

  lemma RelativeFitsIff(base: string, dest: string)
    ensures var r := RouteOf(base, dest);
            Size(RelativePath(base, dest)) <= 256 <==>
              r.NoRoute? || r.ups > 0 || |Stripped(r.down)| < 254 || |Stripped(r.down)| >= 256
  {
    var r := RouteOf(base, dest);
    if r.Route? { EmitFitsIff(r.ups, r.down); }
  }

  /** RelativePath fails, and writes nothing, exactly for a base that is not absolute and a destination
      that is. */
  lemma NoRouteIff(base: string, dest: string)
    ensures RouteOf(base, dest).NoRoute? <==> base != "" && base[0] != SLASH && At(dest, 0) == SLASH
    ensures RelativePath(base, dest) == Written(Fails, "") <==> RouteOf(base, dest).NoRoute?
    ensures RelativePath(base, dest).status == Fails <==> RouteOf(base, dest).NoRoute?
  {
    assert base != "" && base[0] == At(dest, 0) ==> MatchEnd(base, dest, 0) > 0;
  }

  lemma MountWithoutRoute()
    ensures RelativePath("mnt", "/a") == Written(Fails, "")
  {
    NoRouteIff("mnt", "/a");
  }

  /** From the root to one component of 255 characters: 257 characters and a NUL. */
  lemma RootOverruns(name: string)
    requires |name| == 255 && name[0] != SLASH && name[0] != NUL
    ensures RelativePath([SLASH], [SLASH] + name) == Written(Ok, "./" + name)
    ensures Size(RelativePath([SLASH], [SLASH] + name)) == 258
  {
    var a, b := [SLASH], [SLASH] + name;
    assert MatchEnd(a, b, 0) == 1 && At(b, 1) == name[0];
    assert b[0..] == b && b[1..] == name;
    assert LastSlash(a, 1) == 0 && CountUps(a, 1) == 0;
  }

  /** The mount point test looks at the first characters written; without a mount point every path
      passes. */
  function PathIsOnMount(mount: string, dest: string): bool {
    var text := RelativePath(mount, dest).text;
    !(At(text, 0) == DOT && At(text, 1) == DOT && (At(text, 2) == SLASH || At(text, 2) == NUL))
  }

  // ----- paths from the front -----

  /** "/a/b", and nothing for no components. */
  function Tailed(parts: seq<string>): string { if parts == [] then "" else [SLASH] + parts[0] + Tailed(parts[1..]) }

  /** "a/b" */
  function Join(parts: seq<string>): string { if parts == [] then "" else parts[0] + Tailed(parts[1..]) }

  lemma {:induction false} TailedConcat(a: seq<string>, b: seq<string>)
    ensures Tailed(a + b) == Tailed(a) + Tailed(b)
  {
    if a == [] {
      assert a + b == b;
    } else {
      assert (a + b)[1..] == a[1..] + b;
      TailedConcat(a[1..], b);
    }
  }

  lemma TailedLast(parts: seq<string>, c: string)
    ensures Tailed(parts + [c]) == Tailed(parts) + [SLASH] + c
  {
    TailedConcat(parts, [c]);
    assert [c][1..] == [] && [SLASH] + c + "" == [SLASH] + c;
  }

  lemma {:induction false} SlashedIsTailed(parts: seq<string>)
    ensures Slashed(parts) == Tailed(parts) + [SLASH]
    decreases |parts|
  {
    if parts != [] {
      SlashedIsTailed(Front(parts));
      assert parts == Front(parts) + [Last(parts)];
      TailedLast(Front(parts), Last(parts));
    }
  }

  /** The canonical path is "/" or the components with a slash before each. */
  lemma RenderIsTailed(parts: seq<string>)
    ensures Render(parts) == if parts == [] then [SLASH] else Tailed(parts)
  {
    if parts != [] {
      var f, c := Front(parts), Last(parts);
      assert parts == f + [c];
      SlashedIsTailed(f);
      TailedLast(f, c);
      PushSlashed(f, c);
    }
  }

  lemma TailedSplit(parts: seq<string>, k: nat)
    requires k <= |parts|
    ensures Tailed(parts) == Tailed(parts[..k]) + Tailed(parts[k..])
  {
    assert parts == parts[..k] + parts[k..];
    TailedConcat(parts[..k], parts[k..]);
  }

  // ----- walking from base to dest -----

  predicate IsName(c: string) { IsPart(c) && c != "." && c != ".." }

  ghost predicate Names(parts: seq<string>) { forall i :: 0 <= i < |parts| ==> IsName(parts[i]) }

  lemma HeadOf(c: string, rest: string)
    requires NoSlash(c) && (rest == "" || rest[0] == SLASH)
    ensures c + rest != "" ==> Head(c + rest) == c && Tail(c + rest) == if rest == "" then "" else rest[1..]
    decreases |c|
  {
    if c != "" {
      assert (c + rest)[0] == c[0] && (c + rest)[1..] == c[1..] + rest;
      assert [c[0]] + c[1..] == c;
      if c[1..] + rest != "" { HeadOf(c[1..], rest); }
    }
  }

  lemma TailedStarts(parts: seq<string>)
    ensures parts != [] ==> Tailed(parts) != "" && Tailed(parts)[0] == SLASH && Tailed(parts)[1..] == Join(parts)
  {
    if parts != [] { DropFirst(SLASH, parts[0], Tailed(parts[1..])); }
  }

  lemma DropFirst<T>(x: T, a: seq<T>, b: seq<T>)
    ensures ([x] + a + b)[0] == x && ([x] + a + b)[1..] == a + b
  {}

  /** Walking the names pushes them all, when the whole path fits. */
  lemma {:induction false} WalkNames(stack: seq<string>, parts: seq<string>)
    requires Names(parts) && |Render(stack + parts)| <= MAX_PATH
    ensures Walk(stack, Join(parts)) == At_(stack + parts) && Clean(Join(parts))
    decreases |parts|
  {
    if parts == [] {
      assert stack + parts == stack;
    } else {
      var c, t := parts[0], parts[1..];
      assert IsName(c);
      TailedStarts(t);
      HeadOf(c, Tailed(t));
      assert stack + [c] + t == stack + parts;
      WalkNames(stack + [c], t);
      PushFits(stack, c, t);
    }
  }

  /** Each push on the way is a beginning of the whole path. */
  lemma PushFits(stack: seq<string>, c: string, t: seq<string>)
    ensures |Slashed(stack)| + |c| + (if t == [] then 0 else 1) <= |Render(stack + [c] + t)|
  {
    SlashedIsTailed(stack);
    RenderIsTailed(stack + [c] + t);
    TailedConcat(stack + [c], t);
    TailedConcat(stack, [c]);
    assert [c][1..] == [];
    TailedStarts(t);
  }

  lemma UpStep(rest: string)
    ensures Head("../" + rest) == ".." && Tail("../" + rest) == rest
  {
    HeadOf("..", "/" + rest);
    assert ".." + ("/" + rest) == "../" + rest;
  }

  lemma UpsCons(n: nat, rest: string)
    requires n > 0
    ensures Ups(n) + rest == "../" + (Ups(n - 1) + rest)
  {}

  lemma WalkUpOne(stack: seq<string>, rest: string)
    requires stack != []
    ensures Walk(stack, "../" + rest) == Walk(Front(stack), rest)
    ensures Clean(rest) ==> Clean("../" + rest)
  {
    UpStep(rest);
  }

  /** "../" n times goes up n components. */
  lemma {:induction false} WalkUps(stack: seq<string>, n: nat, rest: string)
    requires n <= |stack|
    ensures Walk(stack, Ups(n) + rest) == Walk(stack[..|stack| - n], rest)
    ensures Clean(rest) ==> Clean(Ups(n) + rest)
    decreases n
  {
    hide Walk, Clean;
    if n == 0 {
      assert Ups(n) + rest == rest && stack[..|stack|] == stack;
    } else {
      UpsCons(n, rest);
      WalkUpOne(stack, Ups(n - 1) + rest);
      WalkUps(Front(stack), n - 1, rest);
      assert Front(stack)[..|stack| - n] == stack[..|stack| - n];
    }
  }

  lemma WalkStay(stack: seq<string>, rest: string)
    ensures Walk(stack, "./" + rest) == Walk(stack, rest)
    ensures Clean(rest) ==> Clean("./" + rest)
  {
    HeadOf(".", "/" + rest);
    assert "." + ("/" + rest) == "./" + rest;
  }

  // ----- what RelativePath writes -----

  /** n components up, and down from there. */
  function Way(n: nat, down: seq<string>): string { (if n == 0 then "./" else Ups(n)) + Join(down) }

  /** k components are common, all of base's if dest is below base. */
  ghost predicate Meeting(base: seq<string>, dest: seq<string>, k: nat) {
    k <= |base| && k <= |dest| && base[..k] == dest[..k] && (base <= dest ==> k == |base|)
  }

  // ----- counting components -----

  lemma {:induction false} SkipChars(base: string, i: nat, j: nat)
    requires 1 <= i <= j <= |base| + 1 && forall x :: i - 1 <= x < j - 1 ==> base[x] != SLASH
    ensures CountUps(base, i) == CountUps(base, j)
    decreases j - i
  {
    if i < j {
      assert base[i - 1] != SLASH;
      SkipChars(base, i + 1, j);
    }
  }

  lemma CountOne(base: string, i: nat)
    requires 1 <= i < |base| && base[i - 1] == SLASH
    ensures CountUps(base, i) == 1 + CountUps(base, i + 1)
  {}

  /** A component counts once. */
  lemma CountComponent(base: string, n: nat, c: string, more: string)
    requires n <= |base| && IsPart(c) && base[n..] == [SLASH] + c + more
    ensures CountUps(base, n + 1) == 1 + CountUps(base, n + 1 + |c| + 1)
    ensures n + 1 + |c| <= |base| && base[n + 1 + |c|..] == more
  {
    hide CountUps;
    assert base[n] == base[n..][0] == SLASH;
    forall x | 0 <= x < |c| ensures base[n + 1 + x] == c[x] { assert base[n..][1 + x] == c[x]; }
    CountOne(base, n + 1);
    SkipChars(base, n + 2, n + |c| + 2);
  }

  lemma {:induction false} CountTailedFrom(base: string, n: nat, parts: seq<string>)
    requires Parts(parts) && n <= |base| && base[n..] == Tailed(parts)
    ensures CountUps(base, n + 1) == |parts|
    decreases |parts|
  {
    if parts != [] {
      assert IsPart(parts[0]);
      CountComponent(base, n, parts[0], Tailed(parts[1..]));
      hide CountUps, Tailed;
      CountTailedFrom(base, n + 1 + |parts[0]|, parts[1..]);
    }
  }

  lemma CountTailed(pre: string, parts: seq<string>)
    requires Parts(parts)
    ensures CountUps(pre + Tailed(parts), |pre| + 1) == |parts|
  {
    CountTailedFrom(pre + Tailed(parts), |pre|, parts);
  }

  // ----- from a path that is not absolute -----

  lemma {:induction false} NoSlashes(base: string, i: nat, j: nat)
    requires i <= j <= |base| && forall x :: i <= x < j ==> base[x] != SLASH
    ensures CountSlashes(base, i) == CountSlashes(base, j)
    decreases j - i
  {
    if i < j { NoSlashes(base, i + 1, j); }
  }

  lemma {:induction false} CountSlashesFrom(base: string, n: nat, parts: seq<string>)
    requires Parts(parts) && n <= |base| && base[n..] == Tailed(parts)
    ensures CountSlashes(base, n) == |parts|
    decreases |parts|
  {
    if parts != [] {
      var c := parts[0];
      assert IsPart(c);
      assert base[n] == base[n..][0] == SLASH;
      CountComponent(base, n, c, Tailed(parts[1..]));
      forall x | n + 1 <= x < n + 1 + |c| ensures base[x] != SLASH { assert base[n..][x - n] == c[x - n - 1]; }
      NoSlashes(base, n + 1, n + 1 + |c|);
      CountSlashesFrom(base, n + 1 + |c|, parts[1..]);
    }
  }

  /** From a path that is not absolute to one that begins differently: up once for every component, and
      down the whole destination. To nowhere there is nothing to go. */
  lemma RelativeBase(base: seq<string>, dest: string)
    requires Parts(base) && base != [] && At(dest, 0) != SLASH && At(dest, 0) != base[0][0]
    ensures RelativePath(Join(base), dest) == if dest == "" then Written(Ok, "./") else Emit(|base|, dest)
  {
    var a, c, t := Join(base), base[0], base[1..];
    assert IsPart(c) && a == c + Tailed(t) && a[|c|..] == Tailed(t);
    assert a[0] == c[0] && MatchEnd(a, dest, 0) == 0;
    assert forall x :: 0 <= x < |c| ==> a[x] == c[x] != SLASH;
    NoSlashes(a, 0, |c|);
    CountSlashesFrom(a, |c|, t);
    assert "./" + "" == "./";
  }

  // ----- where the paths part -----

  /** The number of leading components both have. */
  function Common(a: seq<string>, b: seq<string>): (n: nat)
    ensures n <= |a| && n <= |b| && a[..n] == b[..n] && (n < |a| && n < |b| ==> a[n] != b[n])
  {
    if a == [] || b == [] || a[0] != b[0] then 0 else 1 + Common(a[1..], b[1..])
  }

  lemma PartsSuffix(parts: seq<string>, k: nat)
    requires Parts(parts) && k <= |parts|
    ensures Parts(parts[k..])
  {}

  /** dest is below base, or is base. */
  lemma RouteBelow(base: seq<string>, dest: seq<string>)
    requires Parts(base) && Parts(dest) && base != [] && base <= dest
    ensures RelativePath(Tailed(base), Tailed(dest)) == Emit(0, Tailed(dest[|base|..]))
  {
    var a, b, e := Tailed(base), Tailed(dest), MatchEnd(Tailed(base), Tailed(dest), 0);
    TailedSplit(dest, |base|);
    assert dest[..|base|] == base;
    var r := Tailed(dest[|base|..]);
    assert b == a + r;
    assert e == |a|;
    TailedStarts(dest[|base|..]);
    assert b[e..] == r;
  }

  lemma CharsOf(pre: string, c: string, t: string, s: string)
    requires s == pre + ([SLASH] + c + t)
    ensures s[|pre|] == SLASH && s[..|pre|] == pre && s[|pre| + 1..] == c + t
    ensures forall x :: 0 <= x < |c| ==> s[|pre| + 1 + x] == c[x]
  {}

  /** All of b matches, and base goes on with a slash. */
  lemma MatchAll(a: string, b: string, more: string)
    requires a == b + more && more != "" && more[0] == SLASH
    ensures MatchEnd(a, b, 0) == |b| < |a|
  {
    assert a[|b|] == SLASH && At(b, |b|) == NUL;
    assert forall x :: 0 <= x < |b| ==> a[x] == b[x];
  }

  lemma SlashBefore(a: string, pre: string, c: string, more: string)
    requires NoSlash(c) && a == pre + [SLASH] + c + more
    ensures LastSlash(a, |pre| + 1 + |c|) == |pre|
  {
    assert a == pre + ([SLASH] + c + more);
    CharsOf(pre, c, more, a);
    forall x | |pre| < x < |pre| + 1 + |c| ensures a[x] != SLASH {
      assert a[|pre| + 1 + (x - |pre| - 1)] == c[x - |pre| - 1];
    }
  }

  lemma AboveEnd(a: string, b: string, pre: string, c: string, more: string)
    requires IsPart(c) && b == pre + [SLASH] + c && a == b + more && more != "" && more[0] == SLASH
    ensures MatchEnd(a, b, 0) == |b| < |a| && LastSlash(a, |b|) == |pre| && b[|pre|..] == [SLASH] + c
  {
    MatchAll(a, b, more);
    SlashBefore(a, pre, c, more);
  }

  /** The last case of RelativePath. */
  lemma FromLastSlash(a: string, b: string, e: nat, d: nat)
    requires e == MatchEnd(a, b, 0) && d == LastSlash(a, e) && d <= |b|
    requires !(e == |a| && (At(b, e) == SLASH || At(b, e) == NUL))
    ensures RelativePath(a, b) == Emit(CountUps(a, d + 1), b[d..])
  {}

  lemma TailedSingle(parts: seq<string>, k: nat)
    requires k + 1 == |parts|
    ensures Tailed(parts[k..]) == [SLASH] + parts[k]
  {
    assert parts[k..] == [] + [parts[k]];
    TailedLast([], parts[k]);
    assert "" + [SLASH] + parts[k] == [SLASH] + parts[k];
  }

  lemma AboveSplit(f: seq<string>, c: string, more: seq<string>)
    requires more != []
    ensures Tailed(f + [c] + more) == Tailed(f + [c]) + Tailed(more) && Tailed(more) != "" && Tailed(more)[0] == SLASH
    ensures Tailed(f + [c]) == Tailed(f) + [SLASH] + c
    ensures Tailed(f + [c] + more) == Tailed(f) + Tailed([c] + more)
  {
    hide Tailed;
    TailedConcat(f + [c], more);
    TailedStarts(more);
    TailedLast(f, c);
    assert f + [c] + more == f + ([c] + more);
    TailedConcat(f, [c] + more);
  }

  lemma RouteAboveAt(f: seq<string>, c: string, more: seq<string>)
    requires Parts([c] + more) && more != []
    ensures RelativePath(Tailed(f + [c] + more), Tailed(f + [c])) == Emit(1 + |more|, [SLASH] + c)
  {
    var a, b := Tailed(f + [c] + more), Tailed(f + [c]);
    AboveSplit(f, c, more);
    assert IsPart(([c] + more)[0]);
    AboveEnd(a, b, Tailed(f), c, Tailed(more));
    CountTailed(Tailed(f), [c] + more);
    FromLastSlash(a, b, |b|, |Tailed(f)|);
  }

  /** dest is above base: the walk goes up over dest's last component, too. */
  lemma RouteAbove(base: seq<string>, dest: seq<string>)
    requires Parts(base) && Parts(dest) && dest != [] && dest < base
    ensures RelativePath(Tailed(base), Tailed(dest)) == Emit(|base| - (|dest| - 1), Tailed(dest[|dest| - 1..]))
  {
    var k := |dest| - 1;
    var f, c, more := dest[..k], dest[k], base[|dest|..];
    assert dest == f + [c] && base == f + [c] + more;
    assert [c] + more == base[k..];
    PartsSuffix(base, k);
    RouteAboveAt(f, c, more);
    TailedSingle(dest, k);
  }

  lemma AcrossSplit(f: seq<string>, c: string, t: seq<string>)
    ensures Tailed(f + [c] + t) == Tailed(f) + ([SLASH] + c + Tailed(t)) == Tailed(f) + Tailed([c] + t)
    ensures Tailed(t) != "" ==> Tailed(t)[0] == SLASH
  {
    assert f + [c] + t == f + ([c] + t) && ([c] + t)[1..] == t;
    TailedConcat(f, [c] + t);
    TailedStarts(t);
  }

  lemma AcrossText(a: string, b: string, pre: string, c: string, ta: string, c': string, tb: string, n: nat)
    requires IsPart(c) && IsPart(c') && c != c' && (ta != "" ==> ta[0] == SLASH) && (tb != "" ==> tb[0] == SLASH)
    requires a == pre + ([SLASH] + c + ta) && b == pre + ([SLASH] + c' + tb) && n == CountUps(a, |pre| + 1)
    ensures RelativePath(a, b) == Emit(n, [SLASH] + c' + tb)
  {
    var e := MatchEnd(a, b, 0);
    PartInComponent(a, b, pre, c, ta, c', tb, e);
    FromLastSlash(a, b, e, |pre|);
    assert b[|pre|..] == [SLASH] + c' + tb;
  }

  lemma RouteAcrossAt(f: seq<string>, c: string, t: seq<string>, c': string, t': seq<string>)
    requires Parts([c] + t) && IsPart(c') && c != c'
    ensures RelativePath(Tailed(f + [c] + t), Tailed(f + [c'] + t')) == Emit(1 + |t|, Tailed([c'] + t'))
  {
    AcrossSplit(f, c, t);
    AcrossSplit(f, c', t');
    assert IsPart(([c] + t)[0]);
    CountTailed(Tailed(f), [c] + t);
    AcrossText(Tailed(f + [c] + t), Tailed(f + [c'] + t'), Tailed(f), c, Tailed(t), c', Tailed(t'), 1 + |t|);
    assert ([c'] + t')[1..] == t';
  }

  /** The paths part in a component. */
  lemma RouteAcross(base: seq<string>, dest: seq<string>, k: nat)
    requires Parts(base) && Parts(dest) && k < |base| && k < |dest| && base[..k] == dest[..k] && base[k] != dest[k]
    ensures RelativePath(Tailed(base), Tailed(dest)) == Emit(|base| - k, Tailed(dest[k..]))
  {
    var f, c, t, c', t' := base[..k], base[k], base[k + 1..], dest[k], dest[k + 1..];
    assert base == f + [c] + t && dest == f + [c'] + t' && [c] + t == base[k..] && [c'] + t' == dest[k..];
    PartsSuffix(base, k);
    RouteAcrossAt(f, c, t, c', t');
  }

  lemma MatchesPast(a: string, b: string, n: nat)
    requires n <= |a| && n <= |b| && a[..n] == b[..n]
    ensures MatchEnd(a, b, 0) >= n
  {
    assert forall x :: 0 <= x < n ==> a[x] == a[..n][x] == b[..n][x] == b[x];
  }

  /** The match ends in the component, or right behind base's when the other one is longer. */
  lemma EndsInComponent(a: string, b: string, n: nat, c: string, ta: string, c': string, tb: string, e: nat)
    requires IsPart(c) && IsPart(c') && c != c' && (ta != "" ==> ta[0] == SLASH) && (tb != "" ==> tb[0] == SLASH)
    requires n + |c| + |ta| == |a| && a[n..] == c + ta && n + |c'| + |tb| == |b| && b[n..] == c' + tb
    requires e == MatchEnd(a, b, 0) && e >= n + |c|
    ensures e == n + |c| && At(b, e) != SLASH && At(b, e) != NUL
  {
    forall x | 0 <= x < |c| ensures At(b, n + x) == c[x] { assert a[n + x] == a[n..][x]; }
    Longer(b, n, c, c', tb);
    assert ta != "" ==> a[n + |c|] == a[n..][|c|] == SLASH;
  }

  lemma PartInComponent(a: string, b: string, pre: string, c: string, ta: string, c': string, tb: string, e: nat)
    requires IsPart(c) && IsPart(c') && c != c' && (ta != "" ==> ta[0] == SLASH) && (tb != "" ==> tb[0] == SLASH)
    requires a == pre + ([SLASH] + c + ta) && b == pre + ([SLASH] + c' + tb) && e == MatchEnd(a, b, 0)
    ensures LastSlash(a, e) == |pre|
    ensures !(e == |a| && (At(b, e) == SLASH || At(b, e) == NUL))
  {
    hide MatchEnd, LastSlash;
    var n := |pre| + 1;
    CharsOf(pre, c, ta, a);
    CharsOf(pre, c', tb, b);
    assert a[..n] == pre + [SLASH] == b[..n];
    MatchesPast(a, b, n);
    if e >= n + |c| { EndsInComponent(a, b, n, c, ta, c', tb, e); }
    NoSlashBetween(a, |pre|, e, c);
  }

  lemma NoSlashBetween(a: string, d: nat, e: nat, c: string)
    requires NoSlash(c) && d < e <= d + 1 + |c| <= |a| && a[d] == SLASH
    requires forall x :: 0 <= x < |c| ==> a[d + 1 + x] == c[x]
    ensures LastSlash(a, e) == d
  {
    forall x | d < x < e ensures a[x] != SLASH { assert a[d + 1 + (x - d - 1)] == c[x - d - 1]; }
  }

  /** When all of c matches, the other component is longer. */
  lemma Longer(b: string, n: nat, c: string, c': string, tb: string)
    requires IsPart(c) && IsPart(c') && c != c' && (tb != "" ==> tb[0] == SLASH)
    requires n + |c'| + |tb| == |b| && b[n..] == c' + tb && forall x :: 0 <= x < |c| ==> At(b, n + x) == c[x]
    ensures |c'| > |c| && At(b, n + |c|) == c'[|c|] && At(b, n + |c|) != SLASH && At(b, n + |c|) != NUL
  {
    assert forall x :: 0 <= x < |c'| ==> At(b, n + x) == c'[x] by {
      assert forall x :: 0 <= x < |c'| ==> b[n + x] == b[n..][x];
    }
    if |c'| < |c| {
      OneMatch(b, n, c, |c'|);
      EndOfComponent(b, n, c', tb);
    } else if |c'| == |c| {
      SameText(c, c');
    }
  }

  lemma OneMatch(b: string, n: nat, c: string, x: nat)
    requires x < |c| && NoSlash(c) && forall y :: 0 <= y < |c| ==> At(b, n + y) == c[y]
    ensures At(b, n + x) != SLASH && At(b, n + x) != NUL
  {
    assert At(b, n + x) == c[x];
  }

  lemma EndOfComponent(b: string, n: nat, c: string, t: string)
    requires n + |c| + |t| == |b| && b[n..] == c + t && (t != "" ==> t[0] == SLASH)
    ensures At(b, n + |c|) == SLASH || At(b, n + |c|) == NUL
  {
    if t != "" { assert b[n + |c|] == b[n..][|c|] == t[0]; }
  }

  lemma SameText(a: string, b: string)
    requires |a| == |b| && forall x :: 0 <= x < |a| ==> a[x] == b[x]
    ensures a == b
  {}

  // ----- the route -----

  lemma EmitDown(n: nat, parts: seq<string>)
    ensures Emit(n, Tailed(parts)) ==
            if n > 85 then Written(BadParameter, Ups(85))
            else
              var start := if n == 0 then "./" else Ups(n);
              if |Join(parts)| + 3 * n >= MAX_PATH then Written(BadParameter, start)
              else Written(Ok, start + Join(parts))
  {
    TailedStarts(parts);
  }

  lemma MeetAbove(base: seq<string>, dest: seq<string>)
    requires dest != [] && dest < base
    ensures Meeting(base, dest, |dest| - 1)
  {
    var n := |dest|;
    assert base[..n] == dest;
    assert base[..n][..n - 1] == base[..n - 1];
  }

  lemma MeetAcross(base: seq<string>, dest: seq<string>, k: nat)
    requires k < |base| && k < |dest| && base[..k] == dest[..k] && base[k] != dest[k]
    ensures Meeting(base, dest, k)
  {
    if base <= dest { PrefixAt(base, dest, k); }
  }

  lemma PrefixAt<T>(a: seq<T>, b: seq<T>, k: nat)
    requires a <= b && k < |a|
    ensures a[k] == b[k]
  {}

  lemma MeetCommon(base: seq<string>, dest: seq<string>) returns (k: nat)
    requires Parts(base) && Parts(dest) && base != [] && dest != []
    ensures Meeting(base, dest, k) && RelativePath(Tailed(base), Tailed(dest)) == Emit(|base| - k, Tailed(dest[k..]))
  {
    hide Tailed, RelativePath, Emit, Common;
    k := Common(base, dest);
    if k == |base| {
      assert base == base[..k];
      RouteBelow(base, dest);
    } else if k == |dest| {
      assert dest == dest[..k];
      k := k - 1;
      RouteAbove(base, dest);
      MeetAbove(base, dest);
    } else {
      RouteAcross(base, dest, k);
      MeetAcross(base, dest, k);
    }
  }

  /** From one canonical path to another RelativePath finds a meeting point, and emits the way up to
      it and down again. */
  lemma FindsMeeting(base: seq<string>, dest: seq<string>) returns (k: nat)
    requires Parts(base) && Parts(dest)
    ensures Meeting(base, dest, k)
    ensures RelativePath(Render(base), Render(dest)) == Emit(|base| - k, Tailed(dest[k..]))
            || (dest == [] && k == 0 && RelativePath(Render(base), Render(dest)) == Emit(|base|, [SLASH]))
  {
    k := 0;
    RenderIsTailed(base);
    RenderIsTailed(dest);
    if base == [] {
      FromRoot(dest);
      assert dest[0..] == dest;
    } else if dest == [] {
      ToRoot(base);
    } else {
      k := MeetCommon(base, dest);
    }
  }

  lemma FromRoot(dest: seq<string>)
    requires Parts(dest)
    ensures RelativePath([SLASH], Render(dest)) == Emit(0, if dest == [] then "" else Tailed(dest))
  {
    RenderIsTailed(dest);
    var a, b := [SLASH], Render(dest);
    var e := MatchEnd(a, b, 0);
    StartsWithSlash(dest);
    assert e == 1;
    if dest == [] {
      assert b[1..] == "";
    } else {
      assert IsPart(dest[0]);
      DropFirst(SLASH, dest[0], Tailed(dest[1..]));
      assert At(b, 1) == dest[0][0];
      assert LastSlash(a, 1) == 0;
      FromLastSlash(a, b, 1, 0);
      assert b[0..] == b;
    }
  }

  lemma ToRoot(base: seq<string>)
    requires Parts(base) && base != []
    ensures RelativePath(Render(base), [SLASH]) == Emit(|base|, [SLASH])
  {
    hide CountUps, Emit, RelativePath;
    RenderIsTailed(base);
    var a, b := Tailed(base), [SLASH];
    TailedStarts(base);
    assert IsPart(base[0]);
    assert a == "" + Tailed(base);
    assert |a| > 1;
    var e := MatchEnd(a, b, 0);
    assert e == 1 by { DropFirst(SLASH, base[0], Tailed(base[1..])); assert a[1] == base[0][0]; }
    assert LastSlash(a, 1) == 0;
    CountTailed("", base);
    FromLastSlash(a, b, 1, 0);
    assert b[0..] == b;
  }

  /** What was written says where it leads. */
  lemma RouteText(base: seq<string>, dest: seq<string>) returns (k: nat)
    requires Parts(base) && Parts(dest)
    ensures Meeting(base, dest, k)
    ensures var w := RelativePath(Render(base), Render(dest));
            && (w.status == Ok <==> |Join(dest[k..])| + 3 * (|base| - k) < MAX_PATH)
            && (w.status == Ok ==> w.text == Way(|base| - k, dest[k..]))
            && w.status != Fails
            && (if k == |base| then |w.text| >= 2 && w.text[..2] == "./" else |w.text| >= 3 && w.text[..3] == "../")
  {
    hide Tailed, Render, RouteOf;
    k := FindsMeeting(base, dest);
    var n := |base| - k;
    EmitDown(n, dest[k..]);
    UpsStart(n);
    UpsStart(85);
    if dest == [] { assert dest[k..] == []; assert [SLASH][1..] == "" && Join([]) == ""; }
  }

  lemma {:induction false} UpsStart(n: nat)
    ensures |Ups(n)| == 3 * n
    ensures n > 0 ==> Ups(n)[..3] == "../"
  {
    if n > 0 { UpsStart(n - 1); }
  }

  lemma SameLength<T>(s: seq<T>, n: nat, k: nat)
    requires n + k == |s|
    ensures s[..|s| - n] == s[..k]
  {}

  /** The way leads there. */
  lemma WayWalks(base: seq<string>, k: nat, down: seq<string>)
    requires k <= |base| && Names(down) && |Render(base[..k] + down)| <= MAX_PATH
    ensures Walk(base, Way(|base| - k, down)) == At_(base[..k] + down) && Clean(Way(|base| - k, down))
  {
    hide Render, Walk, Clean, Join, Ups;
    WalkNames(base[..k], down);
    if k == |base| {
      WalkStay(base, Join(down));
      assert base[..k] == base;
    } else {
      WalkUps(base, |base| - k, Join(down));
      SameLength(base, |base| - k, k);
    }
  }

  lemma NamesAreParts(parts: seq<string>)
    requires Names(parts)
    ensures Parts(parts)
  {
    forall i | 0 <= i < |parts| ensures IsPart(parts[i]) { assert IsName(parts[i]); }
  }

  /** RelativePath and SimplifyPath undo each other: between canonical absolute paths shorter than
      256, dest without "." and "..", the path that RelativePath finds leads SimplifyPath from base
      to dest. */
  lemma PathRoundTrip(base: seq<string>, dest: seq<string>)
    requires Parts(base) && Names(dest) && |Render(base)| < MAX_PATH && |Render(dest)| < MAX_PATH
    requires RelativePath(Render(base), Render(dest)).status == Ok
    ensures SimplifyPath(Render(base), RelativePath(Render(base), Render(dest)).text) == Success(Render(dest))
  {
    NamesAreParts(dest);
    var k := RouteText(base, dest);
    RoundTripBy(base, dest, k, RelativePath(Render(base), Render(dest)).text);
  }

  lemma RoundTripBy(base: seq<string>, dest: seq<string>, k: nat, text: string)
    requires Parts(base) && Names(dest) && |Render(base)| <= MAX_PATH && |Render(dest)| <= MAX_PATH
    requires k <= |base| && k <= |dest| && base[..k] == dest[..k] && text == Way(|base| - k, dest[k..])
    ensures SimplifyPath(Render(base), text) == Success(Render(dest))
  {
    CutAndJoin(dest, k);
    WaySimplifies(base, k, dest[k..], dest);
  }

  lemma CutAndJoin<T>(s: seq<T>, k: nat)
    requires k <= |s|
    ensures s == s[..k] + s[k..]
  {}

  lemma WaySimplifies(base: seq<string>, k: nat, down: seq<string>, dest: seq<string>)
    requires Parts(base) && Names(down) && |Render(base)| <= MAX_PATH && |Render(dest)| <= MAX_PATH
    requires k <= |base| && dest == base[..k] + down
    ensures SimplifyPath(Render(base), Way(|base| - k, down)) == Success(Render(dest))
  {
    WayWalks(base, k, down);
    SimplifyRefinesStack(base, Way(|base| - k, down));
  }

  /** A path is on a mount exactly when the mount's components begin it, for paths of any length as
      far as the first characters go. MountTestFitsIff says when the text also fits the buffer that
      the test has for it. */
  lemma OnMountIsPrefix(mount: seq<string>, dest: seq<string>)
    requires Parts(mount) && Parts(dest)
    ensures PathIsOnMount(Render(mount), Render(dest)) <==> mount <= dest
  {
    var k := RouteText(mount, dest);
    var text := RelativePath(Render(mount), Render(dest)).text;
    if k == |mount| {
      assert mount == mount[..k] == dest[..k];
      assert text[1] == text[..2][1] == SLASH;
    } else {
      assert text[0] == text[..3][0] && text[1] == text[..3][1] && text[2] == text[..3][2];
      assert text[..3] == "../";
    }
  }

  /** The mount test stays in its buffer of 256 bytes exactly if the path is not on the mount, or
      what is left of it below the mount is shorter than 254 or too long to be written. */
  lemma MountTestFitsIff(mount: seq<string>, dest: seq<string>)
    requires Parts(mount) && Parts(dest)
    ensures Size(RelativePath(Render(mount), Render(dest))) <= 256 <==>
              !(mount <= dest) || |Join(dest[|mount|..])| < 254 || |Join(dest[|mount|..])| >= 256
  {
    var k := FindsMeeting(mount, dest);
    var n := |mount| - k;
    TailedStarts(dest[k..]);
    if dest == [] { assert dest[k..] == [] && [SLASH][1..] == "" && Join([]) == ""; }
    EmitFitsIff(n, Tailed(dest[k..]));
    EmitFitsIff(n, [SLASH]);
    if n == 0 { assert mount == mount[..k] == dest[..k]; }
  }
}
