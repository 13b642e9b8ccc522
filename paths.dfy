/**
 * File names as `pathlib` sees them, directory listings and glob patterns.
 * A directory that a script writes to is a map from file name to content; a
 * directory that a script walks is a listing: the sequence of its entries in
 * the order the operating system returns them.
 */
module Paths {
  import opened Text

  /** A directory a script writes into: file name to file content. */
  type Dir = map<string, string>

  /** One entry of a directory listing. */
  datatype Entry = Entry(name: string, isFile: bool, content: string)

  /** The index of the dot that starts `name`'s suffix, as `pathlib` finds it:
      the last dot, when it is neither the first nor the last character. */
  function SuffixDot(name: string): (r: int)
    ensures r == -1 || (0 < r < |name| - 1 && name[r] == '.')
    ensures r != -1 ==> forall k :: r < k < |name| ==> name[k] != '.'
  {
    var i := LastDot(name, |name|);
    if 0 < i < |name| - 1 then i else -1
  }

  /** The largest index below `n` holding a dot, or -1. */
  function LastDot(name: string, n: nat): (i: int)
    requires n <= |name|
    ensures -1 <= i < n
    ensures i >= 0 ==> name[i] == '.'
    ensures forall k :: i < k < n ==> name[k] != '.'
  {
    if n == 0 then -1 else if name[n - 1] == '.' then n - 1 else LastDot(name, n - 1)
  }

  /** `Path(name).suffix`. */
  function Suffix(name: string): (r: string)
    ensures r == [] || (r[0] == '.' && |r| >= 2)
    ensures forall k :: 0 < k < |r| ==> r[k] != '.'
  {
    var i := SuffixDot(name);
    if i == -1 then [] else name[i..]
  }

  /** `Path(name).stem`. */
  function Stem(name: string): (r: string)
  {
    var i := SuffixDot(name);
    if i == -1 then name else name[..i]
  }

  /** A name is its stem followed by its suffix. */
  lemma StemSuffix(name: string)
    ensures Stem(name) + Suffix(name) == name
  {
  }

  /** For a name `b + e` whose extension `e` is a dot followed by at least one
      character that is not a dot, and whose base `b` is not empty, the stem is `b`. */
  lemma StemOfExtension(b: string, e: string)
    requires b != [] && |e| >= 2 && e[0] == '.'
    requires forall k :: 0 < k < |e| ==> e[k] != '.'
    ensures Stem(b + e) == b && Suffix(b + e) == e
  {
    var name := b + e;
    var i := SuffixDot(name);
    assert name[|b|] == '.';
    assert i == |b|;
  }

  /** The entries of a listing whose name the glob pattern `"*" + ext` matches. */
  function Glob(listing: seq<Entry>, ext: string): (r: seq<Entry>)
    ensures |r| <= |listing|
    ensures forall e :: e in r <==> e in listing && EndsWith(e.name, ext)
  {
    if listing == [] then []
    else
      var rest := Glob(listing[..|listing| - 1], ext);
      var e := listing[|listing| - 1];
      assert forall x :: x in listing <==> x in listing[..|listing| - 1] || x == e;
      if EndsWith(e.name, ext) then rest + [e] else rest
  }

  /** The entries for which `p` holds, in their listed order (a filtering `if`
      at the top of a loop body). */
  function Select(listing: seq<Entry>, p: Entry -> bool): (r: seq<Entry>)
    ensures |r| <= |listing|
    ensures forall e :: e in r <==> e in listing && p(e)
  {
    if listing == [] then []
    else
      var rest := Select(listing[..|listing| - 1], p);
      var e := listing[|listing| - 1];
      assert forall x :: x in listing <==> x in listing[..|listing| - 1] || x == e;
      if p(e) then rest + [e] else rest
  }

  /** Filtering a listing one entry longer. */
  lemma SelectSnoc(listing: seq<Entry>, e: Entry, p: Entry -> bool)
    ensures Select(listing + [e], p) == Select(listing, p) + (if p(e) then [e] else [])
  {
    assert (listing + [e])[..|listing|] == listing;
  }

  /** The matches of each pattern in turn, concatenated in the order of `exts`. */
  function Collect(listing: seq<Entry>, exts: seq<string>): seq<Entry>
  {
    if exts == [] then [] else Collect(listing, exts[..|exts| - 1]) + Glob(listing, exts[|exts| - 1])
  }

  /** An entry is collected exactly when it is listed and matches one of the patterns. */
  lemma {:induction false} CollectMembers(listing: seq<Entry>, exts: seq<string>, e: Entry)
    ensures e in Collect(listing, exts) <==> e in listing && exists x :: x in exts && EndsWith(e.name, x)
  {
    if exts != [] {
      var init := exts[..|exts| - 1];
      CollectMembers(listing, init, e);
      assert forall x :: x in exts <==> x in init || x == exts[|exts| - 1];
    }
  }

  /** The loop `for extension in exts: files.extend(dir.glob(extension))`. */
  method CollectFiles(listing: seq<Entry>, exts: seq<string>) returns (files: seq<Entry>)
    ensures files == Collect(listing, exts)
    ensures forall e :: e in files <==> e in listing && exists x :: x in exts && EndsWith(e.name, x)
  {
    files := [];
    for i := 0 to |exts|
      invariant files == Collect(listing, exts[..i])
    {
      files := files + Glob(listing, exts[i]);
      assert exts[..i + 1][..i] == exts[..i];
    }
    assert exts[..|exts|] == exts;
    forall e ensures e in files <==> e in listing && exists x :: x in exts && EndsWith(e.name, x) {
      CollectMembers(listing, exts, e);
    }
  }
}
