/**
 * Classification of a decoded API specification into a category, an access
 * tier (ACL) and an operation kind, and the `api` record built from them
 * (plugins/elasticsearch/routes.go, decodeCategory, decodeACL, decodeOp and
 * the tail of decodeSpecFile).
 *
 * The lookup tables `category.FromString` and `acl.FromString` and the
 * default tier `acl.Get` belong to packages outside this model, so they are
 * carried in a `Vocabulary` value and the category and ACL types are type
 * parameters.
 */
module Classify {
  import opened Wrappers
  import opened GoStrings
  import opened SpecFiles

  /** The fields of a specification file that the gateway reads. */
  datatype Spec = Spec(documentation: string, methods: seq<string>, path: string, paths: seq<string>)

  /**
   * op.Operation. `Unset` is the zero value a method list without any entry
   * leaves behind.
   */
  datatype Operation = Unset | Read | Write | Delete

  /**
   * The lookups of the category and acl packages: category.FromString maps
   * every token to a category; acl.FromString may fail; acl.Get is the tier
   * used when the spec name does not resolve.
   */
  datatype Vocabulary<C, A> = Vocabulary(category: string -> C, acl: string -> Option<A>, getAcl: A)

  /**
   * What decodeACL returns: the ACL pointer (None for nil) and, when the
   * lookup failed, the token it could not resolve (its error).
   */
  datatype AclDecoding<A> = AclDecoding(acl: Option<A>, unresolved: Option<string>)

  /** The `api` record handed to the route table. */
  datatype Api<C, A> = Api(name: string, category: C, acl: A, op: Operation, spec: Spec)

  /** Why building the `api` record fails. */
  datatype DecodeFailure = NilAclDereference(specName: string)

  // ---------------------------------------------------------------- category

  /**
   * The category token of a documentation URL: the text before the first
   * `-` of its last `/`-segment, after one trailing ".html" is removed.
   */
  function CategoryTag(doc: string): (tag: string)
    ensures '-' !in tag && '/' !in tag
  {
    var page := TrimSuffix(LastPiece(doc, '/'), ".html");
    LastPieceIsSuffix(doc, '/');
    FirstPiece(page, '-');
    assert forall k :: 0 <= k < |Split(page, '-')[0]| ==> Split(page, '-')[0][k] == page[k];
    Split(page, '-')[0]
  }

  /** decodeCategory */
  function DecodeCategory<C, A>(spec: Spec, voc: Vocabulary<C, A>): C {
    voc.category(CategoryTag(spec.documentation))
  }

  /**
   * decodeCategory is total, and its lookup key is found by reading the
   * documentation URL as `pre + seg`, where `seg` is its last segment,
   * and `seg` without ".html" as `tag + rest`, where `rest` is empty or
   * starts at the first `-`.
   */
  lemma CategoryOfDocumentation<C, A>(spec: Spec, voc: Vocabulary<C, A>, pre: string, seg: string, tag: string, rest: string)
    requires spec.documentation == pre + seg
    requires '/' !in seg && (pre == [] || pre[|pre| - 1] == '/')
    requires TrimSuffix(seg, ".html") == tag + rest
    requires '-' !in tag && (rest == [] || rest[0] == '-')
    ensures CategoryTag(spec.documentation) == tag
    ensures DecodeCategory(spec, voc) == voc.category(tag)
  {
    LastPieceOf(pre, seg, '/');
    FirstPieceOf(tag, rest, '-');
  }

  /** The page "indices-create-index.html" less ".html" reads as "indices" + "-create-index". */
  lemma CreateIndexPage()
    ensures TrimSuffix("indices-create-index.html", ".html") == "indices" + "-create-index"
  {
    var seg := "indices-create-index.html";
    var page := "indices" + "-create-index";
    assert seg == page + ".html";
    assert (page + ".html")[|page|..] == ".html";
    assert (page + ".html")[..|page|] == page;
  }

  /**
   * A documentation URL whose last segment is "indices-create-index.html"
   * (for instance .../reference/master/indices-create-index.html) puts the
   * API in category "indices".
   */
  lemma CategoryOfCreateIndex<C, A>(spec: Spec, voc: Vocabulary<C, A>, pre: string)
    requires pre == [] || pre[|pre| - 1] == '/'
    requires spec.documentation == pre + "indices-create-index.html"
    ensures DecodeCategory(spec, voc) == voc.category("indices")
  {
    CreateIndexPage();
    CategoryOfDocumentation(spec, voc, pre, "indices-create-index.html", "indices", "-create-index");
  }

  // --------------------------------------------------------------------- ACL

  /** The position of the first token that starts with `_`, or |tokens|. */
  function FirstUnderscore(tokens: seq<string>): (i: nat)
    ensures i <= |tokens|
    ensures i < |tokens| ==> HasPrefix(tokens[i], "_")
    ensures forall j :: 0 <= j < i ==> !HasPrefix(tokens[j], "_")
  {
    if tokens == [] then 0
    else if HasPrefix(tokens[0], "_") then 0
    else 1 + FirstUnderscore(tokens[1..])
  }

  /**
   * decodeACL: the first `/`-segment of the URL path that starts with `_`
   * decides, with that `_` removed; without such a segment the spec name up
   * to its first `.` is looked up, falling back to acl.Get.
   */
  function DecodeAcl<C, A>(specName: string, spec: Spec, voc: Vocabulary<C, A>): (r: AclDecoding<A>)
    ensures r.acl.None? ==> r.unresolved.Some?
    ensures r.acl.None? ==> FirstUnderscore(Split(spec.path, '/')) < |Split(spec.path, '/')|
  {
    var tokens := Split(spec.path, '/');
    var i := FirstUnderscore(tokens);
    if i < |tokens| then
      var key := TrimPrefix(tokens[i], "_");
      match voc.acl(key)
      case Some(a) => AclDecoding(Some(a), None)
      case None => AclDecoding(None, Some(key))
    else
      var key := Split(specName, '.')[0];
      match voc.acl(key)
      case Some(a) => AclDecoding(Some(a), None)
      case None => AclDecoding(Some(voc.getAcl), Some(key))
  }

  /**
   * With the URL path written as its segments, only the first segment that
   * starts with `_` is consulted, with exactly that one `_` removed; when it
   * does not resolve the result is an error without an ACL, whatever the
   * later segments hold.
   */
  lemma AclFromFirstUnderscoreSegment<C, A>(specName: string, spec: Spec, voc: Vocabulary<C, A>, segs: seq<string>, i: nat)
    requires |segs| >= 1 && forall k :: 0 <= k < |segs| ==> '/' !in segs[k]
    requires spec.path == Join(segs, '/')
    requires i < |segs| && HasPrefix(segs[i], "_")
    requires forall j :: 0 <= j < i ==> !HasPrefix(segs[j], "_")
    ensures var key := segs[i][1..];
      && "_" + key == segs[i]
      && (voc.acl(key).Some? ==> DecodeAcl(specName, spec, voc) == AclDecoding(voc.acl(key), None))
      && (voc.acl(key).None? ==> DecodeAcl(specName, spec, voc) == AclDecoding(None, Some(key)))
  {
    SplitJoin(segs, '/');
    FirstUnderscoreAt(segs, i);
    UnderscoreKey(segs[i]);
    DecodeAclAtSegment(specName, spec, voc, segs[i][1..]);
  }

  lemma FirstUnderscoreAt(tokens: seq<string>, i: nat)
    requires i < |tokens| && HasPrefix(tokens[i], "_")
    requires forall j :: 0 <= j < i ==> !HasPrefix(tokens[j], "_")
    ensures FirstUnderscore(tokens) == i
  {
  }

  lemma UnderscoreKey(seg: string)
    requires HasPrefix(seg, "_")
    ensures "_" + seg[1..] == seg
  {
  }

  /** DecodeAcl when the first `_` segment is found: its lookup decides alone. */
  lemma DecodeAclAtSegment<C, A>(specName: string, spec: Spec, voc: Vocabulary<C, A>, key: string)
    requires FirstUnderscore(Split(spec.path, '/')) < |Split(spec.path, '/')|
    requires "_" + key == Split(spec.path, '/')[FirstUnderscore(Split(spec.path, '/'))]
    ensures voc.acl(key).Some? ==> DecodeAcl(specName, spec, voc) == AclDecoding(voc.acl(key), None)
    ensures voc.acl(key).None? ==> DecodeAcl(specName, spec, voc) == AclDecoding(None, Some(key))
  {
    var tokens := Split(spec.path, '/');
    assert TrimPrefix(tokens[FirstUnderscore(tokens)], "_") == key;
  }

  /** No `/`-segment of `path` starts with `_`. */
  predicate NoUnderscoreSegment(path: string) {
    forall k :: 0 <= k < |path| && path[k] == '_' ==> 0 < k && path[k - 1] != '/'
  }

  lemma {:induction false} NoUnderscoreToken(path: string)
    requires NoUnderscoreSegment(path)
    ensures FirstUnderscore(Split(path, '/')) == |Split(path, '/')|
    decreases |path|
  {
    if '/' in path {
      var i := IndexOf(path, '/');
      var rest := path[i + 1..];
      assert NoUnderscoreSegment(rest) by {
        forall k | 0 <= k < |rest| && rest[k] == '_'
          ensures 0 < k && rest[k - 1] != '/'
        {
          assert path[i + 1 + k] == '_';
        }
      }
      NoUnderscoreToken(rest);
      var tokens := Split(path, '/');
      assert tokens == [path[..i]] + Split(rest, '/');
      assert !HasPrefix(path[..i], "_") by {
        if i > 0 {
          assert path[0] != '_';
        }
      }
      assert tokens[1..] == Split(rest, '/');
    } else {
      assert Split(path, '/') == [path];
      assert !HasPrefix(path, "_") by {
        if |path| > 0 {
          assert path[0] != '_';
        }
      }
    }
  }

  /**
   * Without a `_` segment, the lookup key is the spec name up to its first
   * `.`; the result always holds an ACL, acl.Get when the key does not
   * resolve (reported together with the key).
   */
  lemma AclFromSpecName<C, A>(specName: string, spec: Spec, voc: Vocabulary<C, A>, key: string, rest: string)
    requires NoUnderscoreSegment(spec.path)
    requires specName == key + rest && '.' !in key && (rest == [] || rest[0] == '.')
    ensures voc.acl(key).Some? ==> DecodeAcl(specName, spec, voc) == AclDecoding(voc.acl(key), None)
    ensures voc.acl(key).None? ==> DecodeAcl(specName, spec, voc) == AclDecoding(Some(voc.getAcl), Some(key))
  {
    NoUnderscoreToken(spec.path);
    FirstPieceOf(key, rest, '.');
  }

  /** The path "/_cat/indices" is classified by the tier "cat". */
  lemma AclOfCatIndices<C, A>(specName: string, spec: Spec, voc: Vocabulary<C, A>)
    requires spec.path == "/_cat/indices" && voc.acl("cat").Some?
    ensures DecodeAcl(specName, spec, voc).acl == voc.acl("cat")
  {
    assert Join(["", "_cat", "indices"], '/') == "/_cat/indices";
    AclFromFirstUnderscoreSegment(specName, spec, voc, ["", "_cat", "indices"], 1);
  }

  // --------------------------------------------------------------- operation

  /** The switch of decodeOp, for one method. */
  function MethodOp(m: string): Operation {
    if m == "PUT" || m == "PATCH" || m == "POST" then Write
    else if m == "DELETE" then Delete
    else Read
  }

  /**
   * The scan of decodeOp from operation `acc` on: POST sets Write and goes
   * on; any other method sets its operation and stops.
   */
  function OpScan(methods: seq<string>, acc: Operation): Operation {
    if methods == [] then acc
    else if methods[0] == "POST" then OpScan(methods[1..], Write)
    else MethodOp(methods[0])
  }

  /** The operation decodeOp computes. */
  function OpOf(methods: seq<string>): Operation {
    OpScan(methods, Unset)
  }

  /** decodeOp, with the labelled break of the source as a loop exit. */
  method DecodeOp(spec: Spec) returns (op: Operation)
    ensures op == OpOf(spec.methods)
  {
    var methods := spec.methods;
    op := Unset;
    var i := 0;
    while i < |methods|
      invariant 0 <= i <= |methods|
      invariant OpScan(methods[i..], op) == OpOf(methods)
    {
      var m := methods[i];
      if m == "PUT" {
        op := Write;
        break;
      } else if m == "PATCH" {
        op := Write;
        break;
      } else if m == "DELETE" {
        op := Delete;
        break;
      } else if m == "GET" {
        op := Read;
        break;
      } else if m == "HEAD" {
        op := Read;
        break;
      } else if m == "POST" {
        op := Write;
      } else {
        op := Read;
        break;
      }
      i := i + 1;
    }
  }

  lemma {:induction false} OpScanFirstNonPost(methods: seq<string>, acc: Operation, i: nat)
    requires i < |methods| && methods[i] != "POST"
    requires forall j :: 0 <= j < i ==> methods[j] == "POST"
    ensures OpScan(methods, acc) == MethodOp(methods[i])
  {
    if i > 0 {
      OpScanFirstNonPost(methods[1..], Write, i - 1);
    }
  }

  /** The operation is decided by the first method that is not POST. */
  lemma OpOfFirstNonPost(methods: seq<string>, i: nat)
    requires i < |methods| && methods[i] != "POST"
    requires forall j :: 0 <= j < i ==> methods[j] == "POST"
    ensures methods[i] in {"PUT", "PATCH"} ==> OpOf(methods) == Write
    ensures methods[i] == "DELETE" ==> OpOf(methods) == Delete
    ensures methods[i] !in {"PUT", "PATCH", "DELETE"} ==> OpOf(methods) == Read
  {
    OpScanFirstNonPost(methods, Unset, i);
  }

  lemma {:induction false} OpScanAllPost(methods: seq<string>, acc: Operation)
    requires methods != []
    requires forall j :: 0 <= j < |methods| ==> methods[j] == "POST"
    ensures OpScan(methods, acc) == Write
    decreases |methods|
  {
    if |methods| > 1 {
      OpScanAllPost(methods[1..], Write);
    }
  }

  /**
   * A non-empty list of POSTs only gives Write; an empty list leaves the
   * zero operation.
   */
  lemma OpOfAllPost(methods: seq<string>)
    requires forall j :: 0 <= j < |methods| ==> methods[j] == "POST"
    ensures methods != [] ==> OpOf(methods) == Write
    ensures methods == [] ==> OpOf(methods) == Unset
  {
    if methods != [] {
      OpScanAllPost(methods, Unset);
    }
  }

  /** POST does not stop the scan: ["POST", "GET"] is a read. */
  lemma OpOfPostThenGet()
    ensures OpOf(["POST", "GET"]) == Read
    ensures OpOf(["PUT"]) == Write && OpOf(["DELETE"]) == Delete
  {
  }

  // -------------------------------------------------------------- api record

  /**
   * The record decodeSpecFile sends to the route table, as written: the ACL
   * pointer is dereferenced, so a nil ACL aborts instead of yielding a record.
   */
  function ApiOf<C, A>(file: string, spec: Spec, voc: Vocabulary<C, A>): (r: Result<Api<C, A>, DecodeFailure>)
    ensures r.Success? ==> r.value.name == SpecName(file) && r.value.spec == spec
    ensures r.Success? ==> r.value.category == voc.category(CategoryTag(spec.documentation))
    ensures r.Success? ==> r.value.op == OpOf(spec.methods)
    ensures r.Success? ==> Some(r.value.acl) == DecodeAcl(SpecName(file), spec, voc).acl
    ensures r.Failure? <==> DecodeAcl(SpecName(file), spec, voc).acl.None?
  {
    var name := SpecName(file);
    var decoded := DecodeAcl(name, spec, voc);
    match decoded.acl
    case None => Failure(NilAclDereference(name))
    case Some(a) => Success(Api(name, DecodeCategory(spec, voc), a, OpOf(spec.methods), spec))
  }

  /**
   * A spec whose first `_` segment is not an ACL makes the record building
   * dereference a nil ACL: "/_nope" with a vocabulary that does not know
   * "nope".
   */
  lemma NilAclOnUnknownUnderscoreSegment<C, A>(file: string, spec: Spec, voc: Vocabulary<C, A>)
    requires spec.path == "/_nope" && voc.acl("nope").None?
    ensures ApiOf(file, spec, voc) == Failure(NilAclDereference(SpecName(file)))
  {
    AclOfNopePath(SpecName(file), spec, voc);
  }

  /** decodeACL on "/_nope" with an unknown "nope": a nil ACL and the token as error. */
  lemma AclOfNopePath<C, A>(specName: string, spec: Spec, voc: Vocabulary<C, A>)
    requires spec.path == "/_nope" && voc.acl("nope").None?
    ensures DecodeAcl(specName, spec, voc) == AclDecoding(None, Some("nope"))
  {
    var segs := ["", "_nope"];
    assert Join(segs, '/') == "/_nope";
    AclFromFirstUnderscoreSegment(specName, spec, voc, segs, 1);
    assert segs[1][1..] == "nope";
  }

  /**
   * The record as evidently intended: an unresolved `_` segment falls back
   * to acl.Get, as an unresolved spec name does, so a record is always built.
   */
  function ApiOfCorrected<C, A>(file: string, spec: Spec, voc: Vocabulary<C, A>): (a: Api<C, A>)
    ensures ApiOf(file, spec, voc).Success? ==> a == ApiOf(file, spec, voc).value
    ensures ApiOf(file, spec, voc).Failure? ==> a.acl == voc.getAcl && a.name == SpecName(file)
    ensures a.category == DecodeCategory(spec, voc)
    ensures a.op == OpOf(spec.methods) && a.spec == spec
  {
    var name := SpecName(file);
    var decoded := DecodeAcl(name, spec, voc);
    var acl := match decoded.acl case Some(x) => x case None => voc.getAcl;
    Api(name, DecodeCategory(spec, voc), acl, OpOf(spec.methods), spec)
  }
}
