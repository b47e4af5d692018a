/** Path validation: a request path is resolved against the working directory
    as `os.path.abspath("." + path)` does, purely lexically, and only the
    resolved string is compared with the allowed prefixes. */
module PathValidator {
  import opened Errors

  /** The allowed prefix the server starts with, before the command line adds more. */
  const DEFAULT_ROOT: string := "./long-bottom"

  predicate IsAbsolute(p: string) {
    |p| > 0 && p[0] == '/'
  }

  /** `s.split('/')`: the pieces between slashes, empty pieces included. */
  function SplitSlash(s: string): (parts: seq<string>)
    ensures |parts| >= 1
    ensures forall i :: 0 <= i < |parts| ==> '/' !in parts[i]
  {
    if s == [] then [""]
    else if s[0] == '/' then [""] + SplitSlash(s[1..])
    else
      var rest := SplitSlash(s[1..]);
      [[s[0]] + rest[0]] + rest[1..]
  }

  /** `'/'.join(parts)`. */
  function JoinSlash(parts: seq<string>): string {
    if |parts| == 0 then ""
    else if |parts| == 1 then parts[0]
    else parts[0] + "/" + JoinSlash(parts[1..])
  }

  /** Putting a letter before the first of several parts. */
  lemma JoinConsMany(c: char, parts: seq<string>)
    requires |parts| > 1
    ensures JoinSlash([[c] + parts[0]] + parts[1..]) == [c] + JoinSlash(parts)
  {
    var q := [[c] + parts[0]] + parts[1..];
    assert q[1..] == parts[1..];
  }

  /** Putting a letter before the first part puts it before the joined string. */
  lemma JoinConsFirst(c: char, parts: seq<string>)
    requires |parts| >= 1
    ensures JoinSlash([[c] + parts[0]] + parts[1..]) == [c] + JoinSlash(parts)
  {
    if |parts| == 1 {
      assert [[c] + parts[0]] + parts[1..] == [[c] + parts[0]];
    } else {
      JoinConsMany(c, parts);
    }
  }

  /** Splitting on '/' and joining again gives back the string. */
  lemma {:induction false} JoinSplit(s: string)
    ensures JoinSlash(SplitSlash(s)) == s
  {
    if s == [] {
    } else if s[0] == '/' {
      JoinSplit(s[1..]);
      assert ([""] + SplitSlash(s[1..]))[1..] == SplitSlash(s[1..]);
      assert s == "/" + s[1..];
    } else {
      JoinSplit(s[1..]);
      JoinConsFirst(s[0], SplitSlash(s[1..]));
      assert s == [s[0]] + s[1..];
    }
  }

  /** A piece without a slash splits to itself. */
  lemma {:induction false} SplitPlain(w: string)
    requires '/' !in w
    ensures SplitSlash(w) == [w]
  {
    if w != [] {
      SplitPlain(w[1..]);
      assert [w[0]] + w[1..] == w;
    }
  }

  /** A piece without a slash, then a slash, splits off as the first part. */
  lemma {:induction false} SplitFirst(w: string, rest: string)
    requires '/' !in w
    ensures SplitSlash(w + "/" + rest) == [w] + SplitSlash(rest)
  {
    if w == [] {
      assert ("/" + rest)[1..] == rest;
    } else {
      SplitFirst(w[1..], rest);
      assert (w + "/" + rest)[1..] == w[1..] + "/" + rest;
      assert [w[0]] + w[1..] == w;
    }
  }

  /** Joining pieces without slashes and splitting again gives back the pieces. */
  lemma {:induction false} SplitJoin(parts: seq<string>)
    requires |parts| >= 1
    requires forall i :: 0 <= i < |parts| ==> '/' !in parts[i]
    ensures SplitSlash(JoinSlash(parts)) == parts
  {
    if |parts| == 1 {
      SplitPlain(parts[0]);
    } else {
      SplitJoin(parts[1..]);
      SplitFirst(parts[0], JoinSlash(parts[1..]));
    }
  }

  /** A path component that normalisation keeps. */
  predicate Clean(seg: string) {
    seg != "" && seg != "." && seg != ".." && '/' !in seg
  }

  predicate AllClean(segs: seq<string>) {
    forall i :: 0 <= i < |segs| ==> Clean(segs[i])
  }

  /** The component loop of `posixpath.normpath` for an absolute path: empty
      and `.` components are dropped, `..` pops the last kept component, and a
      `..` at the root stays at the root. */
  function Normalize(stack: seq<string>, comps: seq<string>): (r: seq<string>)
    requires AllClean(stack)
    requires forall i :: 0 <= i < |comps| ==> '/' !in comps[i]
    ensures AllClean(r)
    decreases |comps|
  {
    if comps == [] then stack
    else if comps[0] == "" || comps[0] == "." then Normalize(stack, comps[1..])
    else if comps[0] == ".." then Normalize(if stack == [] then [] else stack[..|stack| - 1], comps[1..])
    else Normalize(stack + [comps[0]], comps[1..])
  }

  /** The leading slashes `normpath` keeps: POSIX leaves exactly two leading
      slashes alone, and folds one or three or more into one. */
  function Leading(s: string): string {
    if |s| >= 2 && s[1] == '/' && (|s| == 2 || s[2] != '/') then "//" else "/"
  }

  /** `posixpath.normpath` of an absolute path. */
  function NormPath(s: string): (r: string)
    requires IsAbsolute(s)
    ensures IsAbsolute(r)
    ensures (|r| >= 2 && r[1] == '/') <==> (|s| >= 2 && s[1] == '/' && (|s| == 2 || s[2] != '/'))
  {
    var segs := Normalize([], SplitSlash(s));
    JoinCleanShape(segs);
    Leading(s) + JoinSlash(segs)
  }

  /** `posixpath.join(a, b)` for two parts. */
  function JoinPath(a: string, b: string): (r: string)
    ensures IsAbsolute(a) || IsAbsolute(b) ==> IsAbsolute(r)
    ensures IsAbsolute(b) ==> r == b
    ensures !IsAbsolute(b) ==> a <= r && |a| + |b| <= |r| <= |a| + 1 + |b| && r[|r| - |b|..] == b
    ensures !IsAbsolute(b) ==> (|r| == |a| + 1 + |b| <==> a != [] && a[|a| - 1] != '/')
    ensures !IsAbsolute(b) && |r| == |a| + 1 + |b| ==> r[|a|] == '/'
  {
    if IsAbsolute(b) then b
    else if a == [] || a[|a| - 1] == '/' then a + b
    else a + "/" + b
  }

  /** `os.path.abspath("." + requestPath)` with `cwd` as the working directory. */
  function Resolve(cwd: string, requestPath: string): (r: string)
    requires IsAbsolute(cwd)
    ensures IsAbsolute(r) && NoDotSegments(r) && NormPath(r) == r
  {
    var joined := JoinPath(cwd, "." + requestPath);
    ResolvedHasNoDotSegments(joined);
    NormPathIdempotent(joined);
    NormPath(joined)
  }

  /** No component of `p` is `.` or `..`: the string names the file it reaches. */
  predicate NoDotSegments(p: string) {
    var parts := SplitSlash(p);
    forall i :: 0 <= i < |parts| ==> parts[i] != "." && parts[i] != ".."
  }

  /** Joined clean components start with the first component's first letter. */
  lemma JoinCleanShape(segs: seq<string>)
    requires AllClean(segs)
    ensures JoinSlash(segs) == [] <==> segs == []
    ensures segs != [] ==> JoinSlash(segs)[0] == segs[0][0]
  {
    if |segs| >= 2 {
      assert JoinSlash(segs) == segs[0] + ("/" + JoinSlash(segs[1..]));
    }
  }

  /** The pieces of a normalised path: the empty pieces of its leading
      slashes, then its clean components. */
  lemma SplitNormalized(lead: string, segs: seq<string>)
    requires lead == "/" || lead == "//"
    requires AllClean(segs)
    ensures var parts := SplitSlash(lead + JoinSlash(segs));
      (segs == [] ==> parts == if lead == "/" then ["", ""] else ["", "", ""]) &&
      (segs != [] ==> parts == (if lead == "/" then [""] else ["", ""]) + segs)
  {
    var j := JoinSlash(segs);
    SplitJoinedClean(segs);
    SplitAfterSlash(j);
    if lead == "//" {
      SplitAfterTwoSlashes(j);
    }
  }

  /** Joined clean components split back into them. */
  lemma SplitJoinedClean(segs: seq<string>)
    requires AllClean(segs)
    ensures SplitSlash(JoinSlash(segs)) == if segs == [] then [""] else segs
  {
    if segs != [] {
      SplitJoin(segs);
    }
  }

  /** Two leading slashes split off as two empty pieces. */
  lemma SplitAfterTwoSlashes(s: string)
    ensures SplitSlash("//" + s) == ["", ""] + SplitSlash(s)
  {
    SplitAfterSlash("/" + s);
    SplitAfterSlash(s);
    assert "//" + s == "/" + ("/" + s);
  }

  /** A leading slash splits off as an empty first piece. */
  lemma SplitAfterSlash(s: string)
    ensures SplitSlash("/" + s) == [""] + SplitSlash(s)
  {
    assert ("/" + s)[1..] == s;
  }

  /** A resolved path has no `.` or `..` component. */
  lemma ResolvedHasNoDotSegments(s: string)
    requires IsAbsolute(s)
    ensures NoDotSegments(NormPath(s))
  {
    SplitNormalized(Leading(s), Normalize([], SplitSlash(s)));
  }

  /** Normalisation keeps a stack of clean components and pushes clean ones. */
  lemma {:induction false} NormalizeClean(stack: seq<string>, segs: seq<string>)
    requires AllClean(stack) && AllClean(segs)
    ensures Normalize(stack, segs) == stack + segs
    decreases |segs|
  {
    if segs != [] {
      NormalizeClean(stack + [segs[0]], segs[1..]);
      assert stack + [segs[0]] + segs[1..] == stack + segs;
    }
  }

  /** Normalising is idempotent: a resolved path resolves to itself. */
  lemma NormPathIdempotent(s: string)
    requires IsAbsolute(s)
    ensures NormPath(NormPath(s)) == NormPath(s)
  {
    var lead := Leading(s);
    var segs := Normalize([], SplitSlash(s));
    var r := lead + JoinSlash(segs);
    JoinCleanShape(segs);
    assert Leading(r) == lead;
    SplitNormalized(lead, segs);
    var parts := SplitSlash(r);
    if lead == "/" {
      if segs == [] {
        assert parts[1..] == [""] && parts[1..][1..] == [];
        assert Normalize([], parts) == Normalize([], parts[1..]) == Normalize([], []) == [];
      } else {
        assert parts[1..] == segs;
        NormalizeClean([], segs);
        assert Normalize([], parts) == Normalize([], parts[1..]) == segs;
      }
    } else {
      if segs == [] {
        assert parts[1..] == ["", ""] && parts[1..][1..] == [""] && parts[1..][1..][1..] == [];
        assert Normalize([], parts) == Normalize([], parts[1..]) == Normalize([], parts[1..][1..]) == [];
      } else {
        assert parts[1..][1..] == segs;
        NormalizeClean([], segs);
        assert Normalize([], parts) == Normalize([], parts[1..]) == Normalize([], parts[1..][1..]) == segs;
      }
    }
  }

  /** `k` components `..`. */
  function DotDots(k: nat): (r: seq<string>)
    ensures |r| == k && forall i :: 0 <= i < k ==> r[i] == ".."
  {
    if k == 0 then [] else [".."] + DotDots(k - 1)
  }

  /** As many `..` as there are kept components climb to the root, and any
      further `..` stay there: what follows is resolved from the root. */
  lemma {:induction false} ClimbToRoot(stack: seq<string>, k: nat, rest: seq<string>)
    requires AllClean(stack) && k >= |stack|
    requires forall i :: 0 <= i < |rest| ==> '/' !in rest[i]
    ensures Normalize(stack, DotDots(k) + rest) == Normalize([], rest)
    decreases k
  {
    if k > 0 {
      var comps := DotDots(k) + rest;
      assert comps[0] == "..";
      assert comps[1..] == DotDots(k - 1) + rest;
      var popped := if stack == [] then [] else stack[..|stack| - 1];
      assert Normalize(stack, comps) == Normalize(popped, comps[1..]);
      ClimbToRoot(popped, k - 1, rest);
    } else {
      assert DotDots(k) + rest == rest;
    }
  }

  /** Each `..` pops exactly one kept component: `k` of them, with at least
      `k` components kept, leave the stack without its last `k`. */
  lemma {:induction false} ClimbWithin(stack: seq<string>, k: nat, rest: seq<string>)
    requires AllClean(stack) && k <= |stack|
    requires forall i :: 0 <= i < |rest| ==> '/' !in rest[i]
    ensures Normalize(stack, DotDots(k) + rest) == Normalize(stack[..|stack| - k], rest)
    decreases k
  {
    if k > 0 {
      var comps := DotDots(k) + rest;
      assert comps[0] == "..";
      assert comps[1..] == DotDots(k - 1) + rest;
      var popped := stack[..|stack| - 1];
      assert Normalize(stack, comps) == Normalize(popped, comps[1..]);
      ClimbWithin(popped, k - 1, rest);
      assert popped[..|popped| - (k - 1)] == stack[..|stack| - k];
    } else {
      assert DotDots(k) + rest == rest;
      assert stack[..|stack|] == stack;
    }
  }

  /** `'/'.join` of two non-empty runs of pieces puts one slash between them. */
  lemma {:induction false} JoinSlashAppend(a: seq<string>, b: seq<string>)
    requires a != [] && b != []
    ensures JoinSlash(a + b) == JoinSlash(a) + "/" + JoinSlash(b)
    decreases |a|
  {
    assert (a + b)[0] == a[0];
    if |a| == 1 {
      assert (a + b)[1..] == b;
    } else {
      assert (a + b)[1..] == a[1..] + b;
      JoinSlashAppend(a[1..], b);
    }
  }

  /** Joined clean components end with the last component's last letter. */
  lemma {:induction false} JoinCleanLast(segs: seq<string>)
    requires AllClean(segs) && segs != []
    ensures var j := JoinSlash(segs); |j| > 0 && j[|j| - 1] == segs[|segs| - 1][|segs[|segs| - 1]| - 1]
    decreases |segs|
  {
    if |segs| == 1 {
      assert JoinSlash(segs) == segs[0] && Clean(segs[0]);
    } else {
      var r := JoinSlash(segs[1..]);
      JoinCleanLast(segs[1..]);
      var j := segs[0] + "/" + r;
      assert JoinSlash(segs) == j;
      assert j[|j| - 1] == r[|r| - 1];
      assert segs[1..][|segs[1..]| - 1] == segs[|segs| - 1];
    }
  }

  /** Clean components in front of the others are kept as they are. */
  lemma {:induction false} NormalizeKeepsClean(stack: seq<string>, segs: seq<string>, more: seq<string>)
    requires AllClean(stack) && AllClean(segs)
    requires forall i :: 0 <= i < |more| ==> '/' !in more[i]
    ensures forall i :: 0 <= i < |segs + more| ==> '/' !in (segs + more)[i]
    ensures Normalize(stack, segs + more) == Normalize(stack + segs, more)
    decreases |segs|
  {
    assert forall i :: 0 <= i < |segs + more| ==> '/' !in (segs + more)[i] by {
      forall i | 0 <= i < |segs + more|
        ensures '/' !in (segs + more)[i]
      {
        if i < |segs| {
          assert Clean(segs[i]);
        } else {
          assert (segs + more)[i] == more[i - |segs|];
        }
      }
    }
    if segs == [] {
      assert segs + more == more;
      assert stack + segs == stack;
    } else {
      assert (segs + more)[0] == segs[0] && (segs + more)[1..] == segs[1..] + more;
      NormalizeKeepsClean(stack + [segs[0]], segs[1..], more);
      assert stack + [segs[0]] + segs[1..] == stack + segs;
    }
  }

  /** Pieces that contain no slash. */
  predicate Pieces(ps: seq<string>) {
    forall i :: 0 <= i < |ps| ==> '/' !in ps[i]
  }

  lemma PiecesAppend(a: seq<string>, b: seq<string>)
    requires Pieces(a) && Pieces(b)
    ensures Pieces(a + b)
  {
    forall i | 0 <= i < |a + b|
      ensures '/' !in (a + b)[i]
    {
      if i >= |a| {
        assert (a + b)[i] == b[i - |a|];
      }
    }
  }

  lemma CleanPieces(segs: seq<string>)
    requires AllClean(segs)
    ensures Pieces(segs)
  {
    forall i | 0 <= i < |segs|
      ensures '/' !in segs[i]
    {
      assert Clean(segs[i]);
    }
  }

  /** The pieces of the climbing request path contain no slash. */
  lemma ClimbPieces(segs: seq<string>, k: nat, rest: seq<string>)
    requires AllClean(segs) && AllClean(rest)
    ensures Pieces(DotDots(k) + rest)
    ensures Pieces([""] + (segs + (["."] + (DotDots(k) + rest))))
  {
    var tail := DotDots(k) + rest;
    CleanPieces(rest);
    PiecesAppend(DotDots(k), rest);
    CleanPieces(segs);
    PiecesAppend(["."], tail);
    PiecesAppend(segs, ["."] + tail);
    PiecesAppend([""], segs + (["."] + tail));
  }

  /** The components of the climbing path normalise to the clean tail. */
  lemma ClimbNormalizes(segs: seq<string>, k: nat, rest: seq<string>)
    requires AllClean(segs) && |segs| <= k && AllClean(rest)
    ensures Pieces([""] + (segs + (["."] + (DotDots(k) + rest))))
    ensures Normalize([], [""] + (segs + (["."] + (DotDots(k) + rest)))) == rest
  {
    ClimbPieces(segs, k, rest);
    var tail := DotDots(k) + rest;
    var parts := [""] + (segs + (["."] + tail));
    assert Normalize([], parts) == Normalize(segs, ["."] + tail) by {
      PiecesAppend(["."], tail);
      NormalizeKeepsClean([], segs, ["."] + tail);
      assert [] + segs == segs;
      assert parts[1..] == segs + (["."] + tail);
    }
    assert Normalize(segs, ["."] + tail) == Normalize(segs, tail) by {
      assert (["."] + tail)[1..] == tail;
    }
    assert Normalize(segs, tail) == rest by {
      CleanPieces(rest);
      ClimbToRoot(segs, k, rest);
      NormalizeClean([], rest);
    }
  }

  /** The joined path of the climbing request from the root directory. */
  lemma ClimbJoinsAtRoot(tail: seq<string>)
    requires tail != []
    ensures var joined := JoinPath("/", "./" + JoinSlash(tail));
      joined == JoinSlash([""] + (["."] + tail)) && Leading(joined) == "/"
  {
    var joined := JoinPath("/", "./" + JoinSlash(tail));
    assert joined == JoinSlash([""] + (["."] + tail)) by {
      JoinSlashAppend(["."], tail);
      JoinSlashAppend([""], ["."] + tail);
    }
    assert joined[1] == '.';
  }

  /** A working directory below the root, as pieces: it neither ends in a
      slash nor has a second leading one. */
  lemma CwdPieces(segs: seq<string>)
    requires AllClean(segs) && segs != []
    ensures JoinSlash([""] + segs) == "/" + JoinSlash(segs)
    ensures var cwd := "/" + JoinSlash(segs); |cwd| > 1 && cwd[|cwd| - 1] != '/' && cwd[1] != '/'
  {
    JoinSlashCons("", segs);
    JoinCleanLast(segs);
    JoinCleanShape(segs);
    assert Clean(segs[|segs| - 1]) && Clean(segs[0]);
  }

  /** The joined path of the climbing request from a directory below the root. */
  lemma ClimbJoinsBelow(segs: seq<string>, tail: seq<string>)
    requires AllClean(segs) && segs != [] && tail != []
    ensures var joined := JoinPath("/" + JoinSlash(segs), "./" + JoinSlash(tail));
      joined == JoinSlash([""] + (segs + (["."] + tail))) && Leading(joined) == "/"
  {
    var cwd := "/" + JoinSlash(segs);
    CwdPieces(segs);
    JoinSlashCons(".", tail);
    JoinSlashAppend([""] + segs, ["."] + tail);
    assert [""] + (segs + (["."] + tail)) == ([""] + segs) + (["."] + tail);
    assert JoinPath(cwd, "./" + JoinSlash(tail)) == cwd + "/" + ("./" + JoinSlash(tail));
  }

  /** The joined path of the climbing request, as pieces. */
  lemma ClimbJoins(segs: seq<string>, tail: seq<string>)
    requires AllClean(segs) && tail != []
    ensures var joined := JoinPath("/" + JoinSlash(segs), "./" + JoinSlash(tail));
      joined == JoinSlash([""] + (segs + (["."] + tail))) && Leading(joined) == "/"
  {
    if segs == [] {
      ClimbJoinsAtRoot(tail);
      assert [""] + (segs + (["."] + tail)) == [""] + (["."] + tail);
    } else {
      ClimbJoinsBelow(segs, tail);
    }
  }

  /** The pieces of the climbing path split back and normalise to the clean tail. */
  lemma ClimbSplits(segs: seq<string>, k: nat, rest: seq<string>)
    requires AllClean(segs) && |segs| <= k && AllClean(rest)
    ensures var parts := [""] + (segs + (["."] + (DotDots(k) + rest)));
      SplitSlash(JoinSlash(parts)) == parts && Normalize([], parts) == rest
  {
    ClimbNormalizes(segs, k, rest);
    SplitJoin([""] + (segs + (["."] + (DotDots(k) + rest))));
  }

  /** The leading empty component and the `.` are dropped, and the working
      directory's components are kept: what is left is normalised on them. */
  lemma EnterCwd(segs: seq<string>, tail: seq<string>)
    requires AllClean(segs) && Pieces(tail)
    ensures Normalize([], [""] + (segs + (["."] + tail))) == Normalize(segs, tail)
  {
    var parts := [""] + (segs + (["."] + tail));
    assert Normalize([], parts) == Normalize(segs, ["."] + tail) by {
      PiecesAppend(["."], tail);
      NormalizeKeepsClean([], segs, ["."] + tail);
      assert [] + segs == segs;
      assert parts[1..] == segs + (["."] + tail);
    }
    assert (["."] + tail)[1..] == tail;
  }

  /** A first part of clean components is clean. */
  lemma CleanPrefix(segs: seq<string>, n: nat)
    requires AllClean(segs) && n <= |segs|
    ensures AllClean(segs[..n])
  {
    forall i | 0 <= i < n
      ensures Clean(segs[..n][i])
    {
      assert segs[..n][i] == segs[i];
    }
  }

  /** `k` `..` inside the directory, then clean components. */
  lemma ClimbTailWithin(segs: seq<string>, k: nat, rest: seq<string>)
    requires AllClean(segs) && k <= |segs| && AllClean(rest)
    ensures Normalize(segs, DotDots(k) + rest) == segs[..|segs| - k] + rest
  {
    var n := |segs| - k;
    CleanPieces(rest);
    CleanPrefix(segs, n);
    assert Normalize(segs, DotDots(k) + rest) == Normalize(segs[..n], rest) by {
      ClimbPieces(segs, k, rest);
      ClimbWithin(segs, k, rest);
    }
    assert Normalize(segs[..n], rest) == segs[..n] + rest by {
      NormalizeClean(segs[..n], rest);
    }
  }

  /** The components of a request climbing `k` levels inside the working
      directory normalise to the directory's first levels and the clean tail. */
  lemma ClimbNormalizesWithin(segs: seq<string>, k: nat, rest: seq<string>)
    requires AllClean(segs) && k <= |segs| && AllClean(rest)
    ensures Pieces([""] + (segs + (["."] + (DotDots(k) + rest))))
    ensures Normalize([], [""] + (segs + (["."] + (DotDots(k) + rest)))) == segs[..|segs| - k] + rest
  {
    ClimbPieces(segs, k, rest);
    EnterCwd(segs, DotDots(k) + rest);
    ClimbTailWithin(segs, k, rest);
  }

  /** The pieces of a path climbing inside the working directory split back
      and normalise to what is left of the directory and the clean tail. */
  lemma ClimbSplitsWithin(segs: seq<string>, k: nat, rest: seq<string>)
    requires AllClean(segs) && k <= |segs| && AllClean(rest)
    ensures var parts := [""] + (segs + (["."] + (DotDots(k) + rest)));
      SplitSlash(JoinSlash(parts)) == parts && Normalize([], parts) == segs[..|segs| - k] + rest
  {
    ClimbNormalizesWithin(segs, k, rest);
    SplitJoin([""] + (segs + (["."] + (DotDots(k) + rest))));
  }

  /** The `"."` put before an absolute request path. */
  lemma DotBeforeSlash(s: string)
    ensures "." + ("/" + s) == "./" + s
  {
  }

  /** Climbing inside the working directory: `k` components `..`, at most as
      many as the directory has levels, remove its last `k` levels, and the
      clean components after them are appended to what is left. */
  lemma ResolveClimbsWithin(segs: seq<string>, k: nat, rest: seq<string>)
    requires AllClean(segs) && k <= |segs|
    requires AllClean(rest) && rest != []
    ensures Resolve("/" + JoinSlash(segs), "/" + JoinSlash(DotDots(k) + rest)) == "/" + JoinSlash(segs[..|segs| - k] + rest)
  {
    var cwd := "/" + JoinSlash(segs);
    var tail := DotDots(k) + rest;
    var requestPath := "/" + JoinSlash(tail);
    var parts := [""] + (segs + (["."] + tail));
    var kept := segs[..|segs| - k] + rest;
    assert JoinPath(cwd, "." + requestPath) == JoinSlash(parts) && Leading(JoinSlash(parts)) == "/" by {
      DotBeforeSlash(JoinSlash(tail));
      ClimbJoins(segs, tail);
    }
    assert SplitSlash(JoinSlash(parts)) == parts && Normalize([], parts) == kept by {
      ClimbSplitsWithin(segs, k, rest);
    }
    ResolveInStages(cwd, requestPath, JoinSlash(parts), parts, kept);
  }

  /** A request path of clean components names a file below the working
      directory: `/sub/app.log` from `/data` is `/data/sub/app.log`. */
  lemma ResolveDescends(segs: seq<string>, rest: seq<string>)
    requires AllClean(segs) && AllClean(rest) && rest != []
    ensures Resolve("/" + JoinSlash(segs), "/" + JoinSlash(rest)) == "/" + JoinSlash(segs + rest)
  {
    assert DotDots(0) + rest == rest;
    assert segs[..|segs| - 0] == segs;
    ResolveClimbsWithin(segs, 0, rest);
  }

  /** Climbing out of the working directory: from a directory at most `k`
      levels deep, a request path of `k` `..` components and then clean ones
      resolves from the root, whatever the directory was. */
  lemma TraversalReachesRoot(segs: seq<string>, k: nat, rest: seq<string>)
    requires AllClean(segs) && |segs| <= k
    requires AllClean(rest) && rest != []
    ensures Resolve("/" + JoinSlash(segs), "/" + JoinSlash(DotDots(k) + rest)) == "/" + JoinSlash(rest)
  {
    var cwd := "/" + JoinSlash(segs);
    var tail := DotDots(k) + rest;
    var requestPath := "/" + JoinSlash(tail);
    var parts := [""] + (segs + (["."] + tail));
    assert "." + requestPath == "./" + JoinSlash(tail);
    ClimbJoins(segs, tail);
    ClimbSplits(segs, k, rest);
    ResolveInStages(cwd, requestPath, JoinSlash(parts), parts, rest);
  }

  /** `any(file_path.startswith(prefix) for prefix in roots)`. */
  function IsFilePathAllowed(roots: seq<string>, p: string): (allowed: bool)
    ensures allowed <==> exists i :: 0 <= i < |roots| && roots[i] <= p
  {
    if roots == [] then false
    else if roots[0] <= p then true
    else
      var restAllowed := IsFilePathAllowed(roots[1..], p);
      assert restAllowed ==> exists i :: 0 <= i < |roots| && roots[i] <= p by {
        if restAllowed {
          var j :| 0 <= j < |roots[1..]| && roots[1..][j] <= p;
          assert roots[j + 1] <= p;
        }
      }
      restAllowed
  }

  /** A prefix that is not absolute, such as the default `./long-bottom`,
      admits no resolved path: removing it from the list changes nothing. */
  lemma {:induction false} RelativeRootIsInert(root: string, roots: seq<string>, cwd: string, requestPath: string)
    requires IsAbsolute(cwd)
    requires |root| > 0 && root[0] != '/'
    ensures IsFilePathAllowed([root] + roots, Resolve(cwd, requestPath)) == IsFilePathAllowed(roots, Resolve(cwd, requestPath))
  {
    var p := Resolve(cwd, requestPath);
    assert !(root <= p);
    assert ([root] + roots)[1..] == roots;
  }

  /** The server's default prefix `./long-bottom` admits nothing by itself. */
  lemma DefaultRootIsInert(roots: seq<string>, cwd: string, requestPath: string)
    requires IsAbsolute(cwd)
    ensures IsFilePathAllowed([DEFAULT_ROOT] + roots, Resolve(cwd, requestPath)) == IsFilePathAllowed(roots, Resolve(cwd, requestPath))
    ensures !IsFilePathAllowed([DEFAULT_ROOT], Resolve(cwd, requestPath))
  {
    RelativeRootIsInert(DEFAULT_ROOT, roots, cwd, requestPath);
    RelativeRootIsInert(DEFAULT_ROOT, [], cwd, requestPath);
    assert [DEFAULT_ROOT] + [] == [DEFAULT_ROOT];
  }

  /** Resolution, one stage at a time. */
  lemma ResolveInStages(cwd: string, requestPath: string, joined: string, parts: seq<string>, segs: seq<string>)
    requires IsAbsolute(cwd)
    requires JoinPath(cwd, "." + requestPath) == joined
    requires SplitSlash(joined) == parts && Normalize([], parts) == segs
    ensures Resolve(cwd, requestPath) == Leading(joined) + JoinSlash(segs)
  {
  }

  /** `get_absolute_file_path`: resolve first, then test the prefix, then
      test that a regular file is there. */
  function GetAbsoluteFilePath(cwd: string, roots: seq<string>, files: set<string>, requestPath: string): (r: Result<string>)
    requires IsAbsolute(cwd)
    ensures r == Err(ValueError(FORBIDDEN)) <==> !IsFilePathAllowed(roots, Resolve(cwd, requestPath))
    ensures r == Err(ValueError(NOT_FOUND)) <==>
              IsFilePathAllowed(roots, Resolve(cwd, requestPath)) && Resolve(cwd, requestPath) !in files
    ensures r.Ok? <==> IsFilePathAllowed(roots, Resolve(cwd, requestPath)) && Resolve(cwd, requestPath) in files
    ensures r.Ok? ==> r.value == Resolve(cwd, requestPath)
  {
    var filePath := Resolve(cwd, requestPath);
    if !IsFilePathAllowed(roots, filePath) then Err(ValueError(FORBIDDEN))
    else if filePath !in files then Err(ValueError(NOT_FOUND))
    else Ok(filePath)
  }

  /** `k` components `..` followed by `rest`, written out for two. */
  lemma TwoDotDots(rest: seq<string>)
    ensures DotDots(2) + rest == ["..", ".."] + rest
  {
    assert DotDots(1) == [".."] + DotDots(0);
  }

  /** The pieces of `/etc/passwd`. */
  lemma EtcPasswdPieces()
    ensures "/" + JoinSlash(["etc", "passwd"]) == "/etc/passwd"
  {
    assert ["etc", "passwd"][1..] == ["passwd"];
  }

  /** `'/'.join` of a first part and at least one more. */
  lemma JoinSlashCons(a: string, rest: seq<string>)
    requires rest != []
    ensures JoinSlash([a] + rest) == a + "/" + JoinSlash(rest)
  {
    assert ([a] + rest)[1..] == rest;
  }

  /** The pieces of `../etc/passwd`. */
  lemma ClimbEtcPieces()
    ensures JoinSlash(["..", "etc", "passwd"]) == "../etc/passwd"
  {
    EtcPasswdPieces();
    JoinSlashCons("..", ["etc", "passwd"]);
    assert [".."] + ["etc", "passwd"] == ["..", "etc", "passwd"];
  }

  /** The pieces of `/../../etc/passwd`. */
  lemma TraversalRequestPieces()
    ensures "/" + JoinSlash(["..", "..", "etc", "passwd"]) == "/../../etc/passwd"
  {
    ClimbEtcPieces();
    JoinSlashCons("..", ["..", "etc", "passwd"]);
    assert [".."] + ["..", "etc", "passwd"] == ["..", "..", "etc", "passwd"];
  }

  /** The request path and the resolved path of the traversal below, as pieces. */
  lemma TraversalPieces()
    ensures "/" + JoinSlash(DotDots(2) + ["etc", "passwd"]) == "/../../etc/passwd"
    ensures "/" + JoinSlash(["etc", "passwd"]) == "/etc/passwd"
    ensures AllClean(["etc", "passwd"])
  {
    TwoDotDots(["etc", "passwd"]);
    assert ["..", ".."] + ["etc", "passwd"] == ["..", "..", "etc", "passwd"];
    TraversalRequestPieces();
    EtcPasswdPieces();
    assert Clean("etc") && Clean("passwd");
  }

  /** `/data` is not a prefix of `/etc/passwd`. */
  lemma EtcOutsideData()
    ensures !IsFilePathAllowed(["/data"], "/etc/passwd")
  {
    assert "/etc/passwd"[1] != "/data"[1];
  }

  /** The pieces of `/database/x`. */
  lemma DatabasePieces()
    ensures "/" + JoinSlash(["database", "x"]) == "/database/x"
  {
    assert ["database", "x"][1..] == ["x"];
  }

  /** The request path and the resolved path of the sibling example below, as pieces. */
  lemma SiblingPieces()
    ensures "/" + JoinSlash(DotDots(1) + ["database", "x"]) == "/../database/x"
    ensures "/" + JoinSlash(["database", "x"]) == "/database/x"
    ensures AllClean(["database", "x"])
  {
    assert DotDots(1) + ["database", "x"] == [".."] + ["database", "x"];
    DatabasePieces();
    JoinSlashCons("..", ["database", "x"]);
    assert Clean("database") && Clean("x");
  }

  /** `/data` is a prefix of `/database/x`. */
  lemma DatabaseInsideData()
    ensures IsFilePathAllowed(["/data"], "/database/x")
  {
    assert "/data" <= "/database/x";
  }

  /** The prefix is compared letter by letter, not component by component:
      with `/data` allowed, `/../database/x` from any directory one level
      below the root resolves to the sibling directory `/database` and is
      admitted. */
  lemma SiblingDirectoryAdmitted(seg: string)
    requires Clean(seg)
    ensures Resolve("/" + seg, "/../database/x") == "/database/x"
    ensures IsFilePathAllowed(["/data"], Resolve("/" + seg, "/../database/x"))
  {
    assert Resolve("/" + JoinSlash([seg]), "/../database/x") == "/database/x" by {
      SiblingPieces();
      TraversalReachesRoot([seg], 1, ["database", "x"]);
    }
    assert JoinSlash([seg]) == seg;
    DatabaseInsideData();
  }

  /** A directory-traversal request: `/../../etc/passwd`, with `/data` the
      only allowed prefix and the server started at most two directories
      below the root, resolves to `/etc/passwd` and is refused as forbidden,
      whether or not that file exists. */
  lemma TraversalForbidden(segs: seq<string>, files: set<string>)
    requires AllClean(segs) && |segs| <= 2
    ensures GetAbsoluteFilePath("/" + JoinSlash(segs), ["/data"], files, "/../../etc/passwd")
            == Err(ValueError(FORBIDDEN))
  {
    assert Resolve("/" + JoinSlash(segs), "/../../etc/passwd") == "/etc/passwd" by {
      TraversalPieces();
      TraversalReachesRoot(segs, 2, ["etc", "passwd"]);
    }
    EtcOutsideData();
  }

  /** `is_file_accessible`. */
  function IsFileAccessible(roots: seq<string>, files: set<string>, p: string): (b: bool)
    ensures b <==> p in files && exists i :: 0 <= i < |roots| && roots[i] <= p
  {
    p in files && IsFilePathAllowed(roots, p)
  }

  /** What a successful resolution returns passes the second accessibility
      check, is absolute, has no `.` or `..` component, and resolves to itself. */
  lemma ServedPathIsContained(cwd: string, roots: seq<string>, files: set<string>, requestPath: string)
    requires IsAbsolute(cwd)
    requires GetAbsoluteFilePath(cwd, roots, files, requestPath).Ok?
    ensures var p := GetAbsoluteFilePath(cwd, roots, files, requestPath).value;
      IsFileAccessible(roots, files, p) && IsAbsolute(p) && NoDotSegments(p) && NormPath(p) == p
  {
    var s := JoinPath(cwd, "." + requestPath);
    ResolvedHasNoDotSegments(s);
    NormPathIdempotent(s);
  }
}
