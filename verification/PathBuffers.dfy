/** The path functions in the form the program has them: loops that move positions along C strings
    and write into a caller's buffer. */
module PathBuffers {
  import opened Paths
  import opened RelativePaths

  // ----- SimplifyPath -----

  /** The ".." case: how much of the buffer is left, or failure. */
  method PopInto(simpath: array<char>, length: nat) returns (ok: bool, length': nat)
    requires length <= simpath.Length
    ensures var popped := PopChars(simpath[..length]);
            if ok then length' <= length && popped == Success(simpath[..length']) else popped == Failure
  {
    if length == 0 { return false, 0; }
    ghost var sim := simpath[..length];
    length' := length - 1;
    if simpath[length'] == SLASH {
      if length' == 0 { return false, 0; }
      length' := length' - 1;
    }
    ghost var from := length';
    while length' > 0 && simpath[length'] != SLASH
      invariant length' < length && BackTo(sim, from) == BackTo(sim, length')
    {
      length' := length' - 1;
    }
    if simpath[length'] == SLASH { length' := length' + 1; }
    ok := true;
    assert sim[..length'] == simpath[..length'];
  }

  /** The inner loop: an entry is copied from position i of relpath. */
  method CopyInto(simpath: array<char>, length: nat, relpath: string, i: nat) returns (ok: bool, length': nat, i': nat)
    requires simpath.Length > MAX_PATH && length <= simpath.Length && i < |relpath|
    modifies simpath
    ensures var c := CopyEntry(old(simpath[..length]), relpath[i..]);
            if ok then
              i < i' <= |relpath| && length' <= MAX_PATH && c == Copied(simpath[..length'], relpath[i'..])
            else c == TooLong
  {
    length', i' := length, i;
    ghost var all := CopyEntry(simpath[..length], relpath[i..]);
    while i' < |relpath|
      invariant i <= i' <= |relpath| && length' <= simpath.Length && (i < i' ==> length' <= MAX_PATH)
      invariant all == CopyEntry(simpath[..length'], relpath[i'..])
    {
      if length' >= MAX_PATH { return false, length', i'; }
      ghost var before, rest := simpath[..length'], relpath[i'..];
      var c := relpath[i'];
      simpath[length'] := c;
      length', i' := length' + 1, i' + 1;
      assert simpath[..length'] == before + [c] && relpath[i'..] == rest[1..];
      if c == SLASH { break; }
    }
    ok := true;
  }

  /** A slash behind the path so far, unless it ends in one. */
  method SlashInto(simpath: array<char>, length: nat) returns (length': nat)
    requires length < simpath.Length
    modifies simpath
    ensures length' <= length + 1 && simpath[..length'] == WithSlash(old(simpath[..length]))
  {
    length' := length;
    if length == 0 || simpath[length - 1] != SLASH {
      simpath[length] := SLASH;
      length' := length + 1;
    }
  }

  /** The length without the slash at the end. */
  method Trimmed(simpath: array<char>, length: nat) returns (length': nat)
    requires length <= simpath.Length
    ensures length' <= length && Finish(simpath[..length]) == Success(simpath[..length'])
  {
    length' := if length > 1 && simpath[length - 1] == SLASH then length - 1 else length;
    assert simpath[..length][..length'] == simpath[..length'];
  }

  /** VMFileSystemSimplifyPath */
  method SimplifyPathInto(simpath: array<char>, abspath: string, relpath: string) returns (status: Status)
    requires simpath.Length > MAX_PATH
    modifies simpath
    ensures match SimplifyPath(abspath, relpath)
            case Success(p) => status == Ok && |p| < simpath.Length && simpath[..|p|] == p && simpath[|p|] == NUL
            case Failure => status == Fails
            case Invalid => status == BadParameter
  {
    hide CopyEntry, PopChars, WithSlash, Finish;
    if At(relpath, 0) == SLASH || At(abspath, 0) != SLASH { return BadParameter; }
    var length: nat := 0;
    while length < |abspath|
      invariant length <= |abspath| && length <= MAX_PATH && simpath[..length] == abspath[..length]
    {
      if length >= MAX_PATH { return BadParameter; }
      simpath[length] := abspath[length];
      length := length + 1;
    }
    assert abspath[..length] == abspath && relpath[0..] == relpath;
    assert SimplifyPath(abspath, relpath) == SimplifyLoop(abspath, relpath);
    hide SimplifyPath;
    var i: nat := 0;
    var ended := false;
    while i < |relpath| && !ended
      invariant i <= |relpath| && length <= MAX_PATH
      invariant SimplifyPath(abspath, relpath) ==
                if ended then Finish(simpath[..length]) else SimplifyLoop(simpath[..length], relpath[i..])
      decreases |relpath| - i, !ended
    {
      ghost var rel := relpath[i..];
      assert At(rel, 1) == At(relpath, i + 1) && At(rel, 2) == At(relpath, i + 2);
      if relpath[i] == DOT && At(relpath, i + 1) == DOT && (At(relpath, i + 2) == NUL || At(relpath, i + 2) == SLASH) {
        var ok;
        ok, length := PopInto(simpath, length);
        if !ok { return Fails; }
        if At(relpath, i + 2) == NUL || |relpath| - i < 3 {
          ended := true;
        } else {
          i := i + 3;
          assert relpath[i..] == rel[3..];
        }
      } else if relpath[i] == DOT && At(relpath, i + 1) == NUL {
        ended := true;
      } else if relpath[i] == DOT && At(relpath, i + 1) == SLASH && |relpath| - i > 1 {
        i := i + 2;
        assert relpath[i..] == rel[2..];
      } else {
        length := SlashInto(simpath, length);
        var ok;
        ok, length, i := CopyInto(simpath, length, relpath, i);
        if !ok { return BadParameter; }
      }
    }
    length := Trimmed(simpath, length);
    simpath[length] := NUL;
    status := Ok;
  }

  /** VMFileSystemGetAbsolutePath */
  method GetAbsolutePath(abspath: array<char>, curpath: string, destpath: string) returns (status: Status)
    requires abspath.Length > MAX_PATH && abspath.Length > |destpath|
    modifies abspath
    ensures At(destpath, 0) == SLASH ==> status == Ok && abspath[..|destpath|] == destpath && abspath[|destpath|] == NUL
    ensures At(destpath, 0) != SLASH ==>
              match SimplifyPath(curpath, destpath)
              case Success(p) => status == Ok && |p| < abspath.Length && abspath[..|p|] == p && abspath[|p|] == NUL
              case Failure => status == Fails
              case Invalid => status == BadParameter
  {
    if At(destpath, 0) == SLASH {
      for i := 0 to |destpath|
        invariant abspath[..i] == destpath[..i]
      {
        abspath[i] := destpath[i];
      }
      assert destpath[..|destpath|] == destpath;
      abspath[|destpath|] := NUL;
      status := Ok;
    } else {
      status := SimplifyPathInto(abspath, curpath, destpath);
    }
  }

  // ----- RelativePath -----

  /** The loop that writes "../" once for each directory up, as long as there is room. */
  method UpsInto(relpath: array<char>, updirectories: nat) returns (ok: bool, n: nat)
    requires relpath.Length >= 3 * Min(updirectories, 85)
    modifies relpath
    ensures ok == (updirectories <= 85) && n == 3 * Min(updirectories, 85) <= relpath.Length
    ensures relpath[..n] == Ups(Min(updirectories, 85))
  {
    assert Ups(0) == "";
    hide Ups;
    n := 0;
    var left: nat := updirectories;
    while left > 0
      invariant left <= updirectories && n == 3 * (updirectories - left) && n < 256 && n <= relpath.Length
      invariant relpath[..n] == Ups(updirectories - left)
    {
      left := left - 1;
      if n + 3 >= MAX_PATH { return false, n; }
      UpsMore(updirectories - left - 1);
      ghost var before := relpath[..n];
      relpath[n], relpath[n + 1], relpath[n + 2] := DOT, DOT, SLASH;
      n := n + 3;
      assert relpath[..n] == before + "../";
    }
    ok := true;
  }

  function Min(a: nat, b: nat): nat { if a < b then a else b }

  /** The last part of RelativePath: the way up, then the rest of the destination. */
  method EmitInto(relpath: array<char>, updirectories: nat, destpath: string) returns (status: Status, n: nat)
    requires relpath.Length >= Size(Emit(updirectories, destpath))
    modifies relpath
    ensures n <= relpath.Length && Written(status, relpath[..n]) == Emit(updirectories, destpath)
    ensures status == Ok ==> n < relpath.Length && relpath[n] == NUL
  {
    hide Ups;
    var ok;
    UpsStart(updirectories);
    UpsStart(85);
    ok, n := UpsInto(relpath, updirectories);
    if !ok { return BadParameter, n; }
    var relPathLength := n;
    if updirectories == 0 {
      relpath[0], relpath[1] := DOT, SLASH;
      n := 2;
      assert relpath[..2] == "./";
    }
    ghost var start := relpath[..n];
    var rest := Stripped(destpath);
    if |rest| + relPathLength >= MAX_PATH { return BadParameter, n; }
    for i := 0 to |rest|
      invariant relpath[..n + i] == start + rest[..i]
    {
      relpath[n + i] := rest[i];
    }
    assert rest[..|rest|] == rest;
    n := n + |rest|;
    relpath[n] := NUL;
    status := Ok;
  }

  lemma {:induction false} UpsMore(n: nat)
    ensures Ups(n + 1) == Ups(n) + "../"
  {
    if n == 0 {
      assert Ups(1) == "../" + Ups(0);
    } else {
      UpsMore(n - 1);
      assert "../" + (Ups(n - 1) + "../") == ("../" + Ups(n - 1)) + "../";
    }
  }

  /** VMFileSystemRelativePath */
  method RelativePathInto(relpath: array<char>, basepath: string, destpath: string) returns (status: Status, n: nat)
    requires relpath.Length >= Size(RelativePath(basepath, destpath))
    modifies relpath
    ensures n <= relpath.Length && Written(status, relpath[..n]) == RelativePath(basepath, destpath)
    ensures status == Ok ==> n < relpath.Length && relpath[n] == NUL
  {
    hide Emit, Ups;
    var delimiter: int, index: nat := -1, 0;
    while index < |basepath| && basepath[index] == At(destpath, index)
      invariant index <= |basepath| && MatchEnd(basepath, destpath, 0) == MatchEnd(basepath, destpath, index)
      invariant delimiter == LastSlash(basepath, index) && (index <= |destpath| || At(destpath, |destpath|) == NUL)
    {
      if basepath[index] == SLASH { delimiter := index; }
      index := index + 1;
    }
    if index == |basepath| && (At(destpath, index) == SLASH || At(destpath, index) == NUL) {
      status, n := EmitInto(relpath, 0, if index <= |destpath| then destpath[index..] else "");
    } else if delimiter == -1 {
      if At(destpath, 0) == SLASH {
        assert relpath[..0] == "";
        return Fails, 0;
      }
      var ups := 0;
      if destpath != "" {
        ups := 1;
        for i := 0 to |basepath|
          invariant ups + CountSlashes(basepath, i) == 1 + CountSlashes(basepath, 0)
        {
          if basepath[i] == SLASH { ups := ups + 1; }
        }
      }
      status, n := EmitInto(relpath, ups, destpath);
    } else {
      var ups, i := 0, delimiter + 1;
      while i < |basepath|
        invariant delimiter + 1 <= i && ups + CountUps(basepath, i) == CountUps(basepath, delimiter + 1)
      {
        if basepath[i - 1] == SLASH { ups := ups + 1; }
        i := i + 1;
      }
      status, n := EmitInto(relpath, ups, if delimiter <= |destpath| then destpath[delimiter..] else "");
    }
  }

  datatype Option<T> = None | Some(value: T)

  /** VMFileSystemPathIsOnMount: whatever RelativePath's status, its first characters decide. There has
      to be a text (NoRouteIff says when there is none), and it has to fit the buffer (RelativeFitsIff). */
  method PathIsOnMountCall(mntpt: Option<string>, destpath: string) returns (on: bool)
    requires mntpt.Some? ==>
               RelativePath(mntpt.value, destpath).status != Fails
               && Size(RelativePath(mntpt.value, destpath)) <= MAX_PATH
    ensures on == (mntpt.Some? ==> PathIsOnMount(mntpt.value, destpath))
  {
    on := true;
    if mntpt.Some? {
      var relPath := new char[MAX_PATH](_ => NUL);
      var status, n := RelativePathInto(relPath, mntpt.value, destpath);
      ghost var text := relPath[..n];
      AtLeastTwo(mntpt.value, destpath);
      on := !(relPath[0] == DOT && relPath[1] == DOT && (n < 3 || relPath[2] == SLASH || relPath[2] == NUL));
      assert At(text, 0) == relPath[0] && At(text, 1) == relPath[1];
      assert n >= 3 ==> At(text, 2) == relPath[2];
    }
  }

  lemma AtLeastTwo(base: string, dest: string)
    requires RelativePath(base, dest).status != Fails
    ensures |RelativePath(base, dest).text| >= 2
  {
    UpsStart(85);
    forall n: nat ensures |Ups(n)| == 3 * n { UpsStart(n); }
  }
}
