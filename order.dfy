/**
 * Python's ordering of strings (lexicographic by code point) and `sorted()`
 * applied to the paths of one directory, which orders them by file name.
 */
module Order {
  import opened Paths

  /** `a <= b` for Python strings. */
  predicate NameLe(a: string, b: string)
  {
    a == [] || (b != [] && (a[0] < b[0] || (a[0] == b[0] && NameLe(a[1..], b[1..]))))
  }

  lemma {:induction false} NameLeTotal(a: string, b: string)
    ensures NameLe(a, b) || NameLe(b, a)
  {
    if a != [] && b != [] && a[0] == b[0] {
      NameLeTotal(a[1..], b[1..]);
    }
  }

  lemma {:induction false} NameLeTransitive(a: string, b: string, c: string)
    requires NameLe(a, b) && NameLe(b, c)
    ensures NameLe(a, c)
  {
    if a != [] && b != [] && c != [] && a[0] == b[0] && b[0] == c[0] {
      NameLeTransitive(a[1..], b[1..], c[1..]);
    }
  }

  /** Names in non-decreasing order. */
  predicate SortedByName(s: seq<Entry>) {
    forall i, j :: 0 <= i < j < |s| ==> NameLe(s[i].name, s[j].name)
  }

  /** Insert `e` before the first entry whose name it does not exceed. */
  function Insert(e: Entry, s: seq<Entry>): (r: seq<Entry>)
    requires SortedByName(s)
    ensures SortedByName(r)
    ensures multiset(r) == multiset(s) + multiset{e}
  {
    if s == [] then [e]
    else if NameLe(e.name, s[0].name) then
      forall k | 0 < k < |s| ensures NameLe(e.name, s[k].name) {
        NameLeTransitive(e.name, s[0].name, s[k].name);
      }
      SortedCons(e, s);
      [e] + s
    else
      NameLeTotal(e.name, s[0].name);
      var t := Insert(e, s[1..]);
      InsertBound(e, s, t);
      SortedCons(s[0], t);
      assert s == [s[0]] + s[1..];
      [s[0]] + t
  }

  /** An entry whose name does not exceed any name of a sorted sequence can lead it. */
  lemma SortedCons(h: Entry, s: seq<Entry>)
    requires SortedByName(s)
    requires forall k :: 0 <= k < |s| ==> NameLe(h.name, s[k].name)
    ensures SortedByName([h] + s)
  {
    var r := [h] + s;
    forall i, j | 0 <= i < j < |r| ensures NameLe(r[i].name, r[j].name) {
      if i > 0 {
        assert r[i] == s[i - 1] && r[j] == s[j - 1];
      } else {
        assert r[j] == s[j - 1];
      }
    }
  }

  /** The head of a sorted sequence does not exceed any name of the sorted rest
      with `e` inserted, when it does not exceed `e`'s. */
  lemma InsertBound(e: Entry, s: seq<Entry>, t: seq<Entry>)
    requires s != [] && SortedByName(s) && NameLe(s[0].name, e.name)
    requires multiset(t) == multiset(s[1..]) + multiset{e}
    ensures forall k :: 0 <= k < |t| ==> NameLe(s[0].name, t[k].name)
  {
    forall k | 0 <= k < |t| ensures NameLe(s[0].name, t[k].name) {
      var x := t[k];
      assert x in multiset(t);
      if x != e {
        assert x in multiset(s[1..]);
        var m :| 0 <= m < |s[1..]| && s[1..][m] == x;
        assert s[m + 1] == x;
      }
    }
  }

  /** `sorted(paths)` for the paths of one directory. */
  function SortByName(s: seq<Entry>): (r: seq<Entry>)
    ensures SortedByName(r)
    ensures multiset(r) == multiset(s)
  {
    if s == [] then []
    else
      assert s == s[..|s| - 1] + [s[|s| - 1]];
      Insert(s[|s| - 1], SortByName(s[..|s| - 1]))
  }

  /** Sorting neither adds nor drops an entry. */
  lemma SortByNameMembers(s: seq<Entry>)
    ensures forall e :: e in SortByName(s) <==> e in s
  {
    var r := SortByName(s);
    forall e ensures e in r <==> e in s {
      assert e in r <==> e in multiset(r);
      assert e in s <==> e in multiset(s);
    }
  }
}
