/**
 * The create / update / delete shape both editors share: a list of records, each carrying a
 * string id read by `key`; create appends, update replaces every record with the id, delete
 * filters the id out.
 */
module Records {
  import opened Lists

  /** Which notice an editor shows after a submit. */
  datatype Outcome = Rejected | Updated | Added

  /** Some record carries `id`. */
  predicate HasKey<T>(s: seq<T>, key: T -> string, id: string) {
    exists i :: 0 <= i < |s| && key(s[i]) == id
  }

  /** No two records share an id. */
  predicate UniqueKeys<T>(s: seq<T>, key: T -> string) {
    forall i, j :: 0 <= i < j < |s| ==> key(s[i]) != key(s[j])
  }

  /** How many records carry `id`. */
  function CountKey<T>(s: seq<T>, key: T -> string, id: string): (n: nat)
    ensures n <= |s|
    ensures n == 0 <==> !HasKey(s, key, id)
  {
    if s == [] then 0
    else
      assert forall i :: 0 < i < |s| ==> s[i] == s[1..][i - 1];
      assert forall i :: 0 <= i < |s| - 1 ==> s[1..][i] == s[i + 1];
      (if key(s[0]) == id then 1 else 0) + CountKey(s[1..], key, id)
  }

  /** With unique ids, an id is carried once or not at all. */
  lemma {:induction false} CountKeyUnique<T>(s: seq<T>, key: T -> string, id: string)
    requires UniqueKeys(s, key)
    ensures CountKey(s, key, id) == if HasKey(s, key, id) then 1 else 0
  {
    if s != [] {
      CountKeyUnique(s[1..], key, id);
      if key(s[0]) == id {
        assert !HasKey(s[1..], key, id) by {
          forall i | 0 <= i < |s[1..]| ensures key(s[1..][i]) != id {
            assert s[1..][i] == s[i + 1];
          }
        }
      }
    }
  }

  function KeyIsNot<T>(key: T -> string, id: string): T -> bool {
    x => key(x) != id
  }

  /** A record whose id no later record carries, put in front of a list of unique ids. */
  lemma ConsKeepsKeysUnique<T>(x: T, rest: seq<T>, key: T -> string)
    requires UniqueKeys(rest, key)
    requires forall y :: y in rest ==> key(y) != key(x)
    ensures UniqueKeys([x] + rest, key)
  {
    var r := [x] + rest;
    forall i, j | 0 <= i < j < |r| ensures key(r[i]) != key(r[j]) {
      assert r[j] == rest[j - 1];
      if i > 0 {
        assert r[i] == rest[i - 1];
      } else {
        assert r[j] in rest;
      }
    }
  }

  /** Filtering records never makes two of them share an id. */
  lemma {:induction false} FilterKeepsKeysUnique<T(!new)>(s: seq<T>, key: T -> string, keep: T -> bool)
    requires UniqueKeys(s, key)
    ensures UniqueKeys(Filter(s, keep), key)
  {
    if s != [] {
      var tail := s[1..];
      assert UniqueKeys(tail, key) by {
        forall i, j | 0 <= i < j < |tail| ensures key(tail[i]) != key(tail[j]) {
          assert tail[i] == s[i + 1] && tail[j] == s[j + 1];
        }
      }
      FilterKeepsKeysUnique(tail, key, keep);
      var rest := Filter(tail, keep);
      if keep(s[0]) {
        forall y | y in rest ensures key(y) != key(s[0]) {
          assert y in tail;
          var k :| 0 <= k < |tail| && tail[k] == y;
          assert s[k + 1] == y;
        }
        ConsKeepsKeysUnique(s[0], rest, key);
      }
    }
  }

  /**
   * `list.filter(x => x.id !== id)`: the records without `id`, in their original order; the list
   * shrinks by the number of records carrying `id` and is unchanged when there are none.
   */
  function RemoveKey<T(==,!new)>(s: seq<T>, key: T -> string, id: string): (r: seq<T>)
    ensures forall x :: x in r <==> x in s && key(x) != id
    ensures !HasKey(r, key, id)
    ensures SubseqOf(r, s)
    ensures forall x :: key(x) != id ==> multiset(r)[x] == multiset(s)[x]
    ensures |r| == |s| - CountKey(s, key, id)
    ensures !HasKey(s, key, id) ==> r == s
    ensures UniqueKeys(s, key) ==> UniqueKeys(r, key)
  {
    RemoveKeyFacts(s, key, id);
    var r := Filter(s, KeyIsNot(key, id));
    assert forall i :: 0 <= i < |r| ==> r[i] in r;
    r
  }

  lemma RemoveKeyFacts<T(!new)>(s: seq<T>, key: T -> string, id: string)
    ensures |Filter(s, KeyIsNot(key, id))| == |s| - CountKey(s, key, id)
    ensures !HasKey(s, key, id) ==> Filter(s, KeyIsNot(key, id)) == s
    ensures UniqueKeys(s, key) ==> UniqueKeys(Filter(s, KeyIsNot(key, id)), key)
  {
    RemoveKeyCount(s, key, id);
    if UniqueKeys(s, key) {
      FilterKeepsKeysUnique(s, key, KeyIsNot(key, id));
    }
    if !HasKey(s, key, id) {
      FilterAllPass(s, KeyIsNot(key, id));
    }
  }

  lemma {:induction false} RemoveKeyCount<T(!new)>(s: seq<T>, key: T -> string, id: string)
    ensures |Filter(s, KeyIsNot(key, id))| == |s| - CountKey(s, key, id)
  {
    if s != [] {
      RemoveKeyCount(s[1..], key, id);
    }
  }

  /**
   * `list.map(x => x.id === id ? replacement : x)` where `replacement` carries `id` itself: the
   * list keeps its length, its ids and its order; every record carrying `id` becomes
   * `replacement` and every other record is untouched.
   */
  function ReplaceKey<T>(s: seq<T>, key: T -> string, id: string, replacement: T): (r: seq<T>)
    requires key(replacement) == id
    ensures |r| == |s|
    ensures forall i :: 0 <= i < |s| ==> key(r[i]) == key(s[i])
    ensures forall i :: 0 <= i < |s| && key(s[i]) == id ==> r[i] == replacement
    ensures forall i :: 0 <= i < |s| && key(s[i]) != id ==> r[i] == s[i]
    ensures !HasKey(s, key, id) ==> r == s
    ensures UniqueKeys(s, key) ==> UniqueKeys(r, key)
  {
    if s == [] then []
    else
      var rest := ReplaceKey(s[1..], key, id, replacement);
      var r := [if key(s[0]) == id then replacement else s[0]] + rest;
      assert forall i :: 0 < i < |s| ==> r[i] == rest[i - 1] && s[i] == s[1..][i - 1];
      r
  }

  /** Replacing twice with the same record is replacing once. */
  lemma ReplaceKeyIdempotent<T>(s: seq<T>, key: T -> string, id: string, replacement: T)
    requires key(replacement) == id
    ensures ReplaceKey(ReplaceKey(s, key, id, replacement), key, id, replacement)
         == ReplaceKey(s, key, id, replacement)
  {
  }

  /** Appending a record whose id is new keeps the ids unique. */
  lemma AppendKeepsKeysUnique<T>(s: seq<T>, key: T -> string, x: T)
    requires UniqueKeys(s, key) && !HasKey(s, key, key(x))
    ensures UniqueKeys(s + [x], key)
  {
    var r := s + [x];
    forall i, j | 0 <= i < j < |r| ensures key(r[i]) != key(r[j]) {
      if j == |s| {
        assert r[i] == s[i];
      } else {
        assert r[i] == s[i] && r[j] == s[j];
      }
    }
  }

  /** Deleting the id of a record just appended with a fresh id restores the list. */
  lemma AppendThenRemove<T(!new)>(s: seq<T>, key: T -> string, x: T)
    requires !HasKey(s, key, key(x))
    ensures RemoveKey(s + [x], key, key(x)) == s
  {
    var keep := KeyIsNot(key, key(x));
    FilterAppend(s, [x], keep);
    assert Filter([x], keep) == [];
    FilterAllPass(s, keep);
  }

  /** Once an id is deleted, replacing it changes nothing. */
  lemma RemoveThenReplace<T(!new)>(s: seq<T>, key: T -> string, id: string, replacement: T)
    requires key(replacement) == id
    ensures ReplaceKey(RemoveKey(s, key, id), key, id, replacement) == RemoveKey(s, key, id)
  {
  }
}
