/** Keys of a map, sorted as Go's sort.Strings does. */
module Sorting {
  import opened Strings

  ghost predicate Enumerates(keys: seq<string>, s: set<string>) {
    && (forall k :: k in keys <==> k in s)
    && (forall i, j :: 0 <= i < j < |keys| ==> keys[i] != keys[j])
  }

  lemma Members(keys: seq<string>, s: set<string>)
    requires Enumerates(keys, s)
    ensures forall k :: k in keys <==> k in s
  {
  }

  ghost predicate SortedStrings(keys: seq<string>) {
    forall i, j :: 0 <= i < j < |keys| ==> Less(keys[i], keys[j])
  }

  method LeastString(s: set<string>) returns (least: string)
    requires s != {}
    ensures least in s && forall x :: x in s && x != least ==> Less(least, x)
  {
    least :| least in s;
    var todo := s - {least};
    ghost var done := {least};
    while todo != {}
      invariant least in done && done + todo == s && done !! todo
      invariant forall x :: x in done && x != least ==> Less(least, x)
      decreases |todo|
    {
      var x :| x in todo;
      LessTotal(x, least);
      if Less(x, least) {
        forall y | y in done && y != least ensures Less(x, y) { LessTransitive(x, least, y); }
        least := x;
      }
      done, todo := done + {x}, todo - {x};
    }
  }

  /** The keys of a map, sorted. */
  method SortedKeys(s: set<string>) returns (keys: seq<string>)
    ensures Enumerates(keys, s) && SortedStrings(keys)
  {
    keys := [];
    var todo := s;
    while todo != {}
      invariant todo <= s && forall k :: k in keys <==> k in s - todo
      invariant SortedStrings(keys) && forall k, x :: k in keys && x in todo ==> Less(k, x)
      decreases |todo|
    {
      var least := LeastString(todo);
      keys, todo := keys + [least], todo - {least};
    }
    forall i, j | 0 <= i < j < |keys| ensures keys[i] != keys[j] { LessTotal(keys[i], keys[j]); }
  }
}
