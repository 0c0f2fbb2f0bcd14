/**
 * The parts of Go's `strings` and `path/filepath` packages that the route
 * construction relies on, over `string` (one `char` per byte of the Go string).
 * Only the single-separator forms are needed: `strings.Split(s, "/")`,
 * `strings.Split(s, "-")`, `strings.Split(s, ".")`, and `filepath.Base` /
 * `filepath.Ext` with `/` as the only path separator.
 */
module GoStrings {

  /** strings.HasPrefix */
  predicate HasPrefix(s: string, p: string) {
    |p| <= |s| && s[..|p|] == p
  }

  /** strings.HasSuffix */
  predicate HasSuffix(s: string, p: string) {
    |p| <= |s| && s[|s| - |p|..] == p
  }

  /** strings.TrimPrefix: removes `p` once, if `s` starts with it. */
  function TrimPrefix(s: string, p: string): (r: string)
    ensures HasPrefix(s, p) ==> p + r == s
    ensures !HasPrefix(s, p) ==> r == s
  {
    if HasPrefix(s, p) then s[|p|..] else s
  }

  /** strings.TrimSuffix: removes `p` once, if `s` ends with it. */
  function TrimSuffix(s: string, p: string): (r: string)
    ensures HasSuffix(s, p) ==> r + p == s
    ensures !HasSuffix(s, p) ==> r == s
  {
    if HasSuffix(s, p) then s[..|s| - |p|] else s
  }

  /** Position of the first `c` in `s`. */
  function IndexOf(s: string, c: char): (i: nat)
    requires c in s
    ensures i < |s| && s[i] == c && c !in s[..i]
  {
    if s[0] == c then 0 else 1 + IndexOf(s[1..], c)
  }

  /**
   * strings.Split(s, [c]): the pieces of `s` between the occurrences of `c`.
   * There is always at least one piece (Split("", "/") is [""]).
   */
  function Split(s: string, c: char): (parts: seq<string>)
    ensures |parts| >= 1
    ensures forall k :: 0 <= k < |parts| ==> c !in parts[k]
    decreases |s|
  {
    if c !in s then [s]
    else
      var i := IndexOf(s, c);
      [s[..i]] + Split(s[i + 1..], c)
  }

  /** strings.Join(parts, [c]), the inverse of Split. */
  function Join(parts: seq<string>, c: char): string
    requires |parts| >= 1
  {
    if |parts| == 1 then parts[0] else parts[0] + [c] + Join(parts[1..], c)
  }

  /** The last piece of Split(s, [c]): `s[strings.LastIndex(s, c)+1:]`. */
  function LastPiece(s: string, c: char): string {
    var parts := Split(s, c);
    parts[|parts| - 1]
  }

  /** Splitting at a first separator peels off exactly the text before it. */
  lemma SplitAtFirst(a: string, b: string, c: char)
    requires c !in a
    ensures Split(a + [c] + b, c) == [a] + Split(b, c)
  {
    var s := a + [c] + b;
    assert s[|a|] == c;
    var i := IndexOf(s, c);
    assert s[..i] == a;
    assert s[i + 1..] == b;
  }

  /** Join undoes Split. */
  lemma {:induction false} JoinSplit(s: string, c: char)
    ensures Join(Split(s, c), c) == s
    decreases |s|
  {
    if c in s {
      var i := IndexOf(s, c);
      JoinSplit(s[i + 1..], c);
      assert s == s[..i] + [c] + s[i + 1..];
    }
  }

  /** Split undoes Join when no piece contains the separator. */
  lemma {:induction false} SplitJoin(parts: seq<string>, c: char)
    requires |parts| >= 1
    requires forall k :: 0 <= k < |parts| ==> c !in parts[k]
    ensures Split(Join(parts, c), c) == parts
  {
    if |parts| == 1 {
      assert c !in parts[0];
    } else {
      SplitJoin(parts[1..], c);
      SplitAtFirst(parts[0], Join(parts[1..], c), c);
    }
  }

  /** The first piece is the longest prefix of `s` free of `c`. */
  lemma FirstPiece(s: string, c: char)
    ensures HasPrefix(s, Split(s, c)[0])
    ensures |Split(s, c)[0]| < |s| ==> s[|Split(s, c)[0]|] == c
  {
  }

  /** The last piece is the longest suffix of `s` free of `c`. */
  lemma {:induction false} LastPieceIsSuffix(s: string, c: char)
    ensures HasSuffix(s, LastPiece(s, c)) && c !in LastPiece(s, c)
    ensures |LastPiece(s, c)| < |s| ==> s[|s| - |LastPiece(s, c)| - 1] == c
    decreases |s|
  {
    if c in s {
      var i := IndexOf(s, c);
      var rest := s[i + 1..];
      LastPieceIsSuffix(rest, c);
      assert LastPiece(s, c) == LastPiece(rest, c);
      assert s[|s| - |rest| - 1] == c;
      assert s[|s| - |LastPiece(rest, c)|..] == rest[|rest| - |LastPiece(rest, c)|..];
    }
  }

  /**
   * The last piece of `pre + seg` is `seg` when `seg` holds no separator and
   * `pre` is empty or ends with one.
   */
  lemma LastPieceOf(pre: string, seg: string, c: char)
    requires c !in seg
    requires pre == [] || pre[|pre| - 1] == c
    ensures LastPiece(pre + seg, c) == seg
  {
    var s := pre + seg;
    var last := LastPiece(s, c);
    LastPieceIsSuffix(s, c);
    assert s[|s| - |seg|..] == seg;
  }

  /**
   * The first piece of `tag + rest` is `tag` when `tag` holds no separator
   * and `rest` is empty or starts with one.
   */
  lemma FirstPieceOf(tag: string, rest: string, c: char)
    requires c !in tag
    requires rest == [] || rest[0] == c
    ensures Split(tag + rest, c)[0] == tag
  {
    if rest == [] {
      assert tag + rest == tag;
    } else {
      assert tag + rest == tag + [c] + rest[1..];
      SplitAtFirst(tag, rest[1..], c);
    }
  }

  /** Drops every trailing `/`, as the first loop of filepath.Base does. */
  function TrimTrailingSlashes(p: string): (r: string)
    ensures HasPrefix(p, r) && (r == [] || r[|r| - 1] != '/')
    ensures forall k :: |r| <= k < |p| ==> p[k] == '/'
  {
    if p == [] || p[|p| - 1] != '/' then p else TrimTrailingSlashes(p[..|p| - 1])
  }

  /**
   * filepath.Base: the last element of `p` after trailing slashes are
   * removed; "." for the empty path and "/" for a path of slashes only.
   */
  function Base(p: string): (r: string)
    ensures r != []
    ensures p == [] ==> r == "."
    ensures p != [] ==> (r == "/" <==> TrimTrailingSlashes(p) == [])
    ensures p != [] && r != "/" ==> '/' !in r
    ensures p != [] && r != "/" ==> var t := TrimTrailingSlashes(p);
      HasSuffix(t, r) && (|r| == |t| || t[|t| - |r| - 1] == '/')
  {
    if p == [] then "."
    else
      var t := TrimTrailingSlashes(p);
      if t == [] then "/" else LastPieceIsSuffix(t, '/'); LastPiece(t, '/')
  }

  /**
   * filepath.Ext: the suffix of `p` from the last `.` of its final element,
   * or "" when that element has no `.`.
   */
  function Ext(p: string): (e: string)
    ensures e == [] || (e[0] == '.' && HasSuffix(p, e) && '/' !in e && '.' !in e[1..])
    ensures e == [] ==> forall k :: 0 <= k < |p| && p[k] == '.' ==> exists j :: k < j < |p| && p[j] == '/'
  {
    if p == [] || p[|p| - 1] == '/' then ""
    else if p[|p| - 1] == '.' then "."
    else
      var e := Ext(p[..|p| - 1]);
      if e == [] then "" else e + [p[|p| - 1]]
  }

  lemma ExtDot(p: string)
    ensures Ext(p + ".") == "."
  {
  }

  lemma ExtSnoc(p: string, c: char)
    requires c != '/' && c != '.'
    ensures Ext(p + [c]) == if Ext(p) == [] then [] else Ext(p) + [c]
  {
    assert (p + [c])[..|p|] == p;
  }

  /** A file has extension ".json" exactly when its name ends in ".json". */
  lemma ExtIsJson(p: string)
    ensures Ext(p) == ".json" <==> HasSuffix(p, ".json")
  {
    if HasSuffix(p, ".json") {
      var q := p[..|p| - 5];
      assert p == q + "." + "j" + "s" + "o" + "n";
      ExtDot(q);
      ExtSnoc(q + ".", 'j');
      ExtSnoc(q + "." + "j", 's');
      ExtSnoc(q + "." + "j" + "s", 'o');
      ExtSnoc(q + "." + "j" + "s" + "o", 'n');
    }
  }
}
