/**
 * Which files of the API directory are specification files, and the name a
 * specification gets from its file (plugins/elasticsearch/routes.go).
 */
module SpecFiles {
  import opened GoStrings

  /**
   * The filter of the directory walk: an entry that is not a directory
   * (a symbolic link or a device passes too), with extension ".json",
   * whose name does not start with `_`. Having extension ".json" is the
   * same as ending in ".json".
   */
  predicate IsSpecFile(path: string, isDir: bool)
    ensures IsSpecFile(path, isDir) <==> !isDir && HasSuffix(path, ".json") && !HasPrefix(Base(path), "_")
  {
    ExtIsJson(path);
    !isDir && Ext(path) == ".json" && !HasPrefix(Base(path), "_")
  }

  /** The specification's name: its file's base name without ".json". */
  function SpecName(file: string): (name: string)
    ensures HasSuffix(Base(file), ".json") ==> name + ".json" == Base(file)
    ensures !HasSuffix(Base(file), ".json") ==> name == Base(file)
  {
    TrimSuffix(Base(file), ".json")
  }

  /** The base name of a path ending in ".json" is that path's last element. */
  lemma BaseOfJsonPath(path: string)
    requires HasSuffix(path, ".json")
    ensures HasSuffix(Base(path), ".json") && HasSuffix(path, Base(path))
  {
    assert path[|path| - 1] == 'n' by { assert path[|path| - 5..][4] == 'n'; }
    assert TrimTrailingSlashes(path) == path;
    LastPieceIsSuffix(path, '/');
    var last := LastPiece(path, '/');
    assert last[|last| - 5..] == path[|path| - 5..];
  }

  /**
   * A file that passes the walk's filter yields a specification name that,
   * with ".json" added back, is the file's base name, is a suffix of the
   * path, holds no `/` and does not start with `_`.
   */
  lemma SpecNameOfSpecFile(path: string)
    requires IsSpecFile(path, false)
    ensures SpecName(path) + ".json" == Base(path)
    ensures HasSuffix(path, SpecName(path) + ".json")
    ensures '/' !in SpecName(path)
    ensures !HasPrefix(SpecName(path), "_")
  {
    ExtIsJson(path);
    BaseOfJsonPath(path);
    var b := Base(path);
    var name := SpecName(path);
    assert b != "/" && '/' !in b;
    PartOfConcat(name, ".json");
  }

  /** What a prefix holds, or starts with, the whole holds or starts with. */
  lemma PartOfConcat(a: string, t: string)
    ensures forall c :: c in a ==> c in a + t
    ensures forall p :: HasPrefix(a, p) ==> HasPrefix(a + t, p)
  {
    forall p | HasPrefix(a, p)
      ensures HasPrefix(a + t, p)
    {
      assert (a + t)[..|p|] == a[..|p|];
    }
  }
}
