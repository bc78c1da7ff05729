/** The bookkeeping of a node's observer list: subscribing appends an observer, and
    unsubscribing removes every occurrence of it (the behaviour of std::list::remove). */
module ObserverList {

  /** s with every occurrence of o taken out, the other elements in their order. */
  function RemoveAll<T(==)>(s: seq<T>, o: T): (r: seq<T>)
    ensures o !in r
    ensures |r| <= |s|
  {
    if s == [] then []
    else if s[0] == o then RemoveAll(s[1..], o)
    else [s[0]] + RemoveAll(s[1..], o)
  }

  /** r can be obtained from s by deleting elements, without reordering. */
  ghost predicate IsSubsequence<T>(r: seq<T>, s: seq<T>)
    decreases |s|
  {
    if r == [] then true
    else if s == [] then false
    else (r[0] == s[0] && IsSubsequence(r[1..], s[1..])) || IsSubsequence(r, s[1..])
  }

  /** Unsubscribing keeps the remaining observers in their original order. */
  lemma {:induction false} RemoveAllIsSubsequence<T>(s: seq<T>, o: T)
    ensures IsSubsequence(RemoveAll(s, o), s)
  {
    if s != [] {
      RemoveAllIsSubsequence(s[1..], o);
      if s[0] != o {
        assert RemoveAll(s, o)[1..] == RemoveAll(s[1..], o);
      }
    }
  }

  /** Unsubscribing o keeps every other observer as many times as it was subscribed. */
  lemma {:induction false} RemoveAllKeepsOthers<T>(s: seq<T>, o: T, p: T)
    requires p != o
    ensures multiset(RemoveAll(s, o))[p] == multiset(s)[p]
  {
    if s != [] {
      RemoveAllKeepsOthers(s[1..], o, p);
      assert s == [s[0]] + s[1..];
    }
  }

  /** Removal works element by element: it distributes over concatenation. */
  lemma {:induction false} RemoveAllAppend<T>(s: seq<T>, t: seq<T>, o: T)
    ensures RemoveAll(s + t, o) == RemoveAll(s, o) + RemoveAll(t, o)
  {
    if s != [] {
      assert (s + t)[1..] == s[1..] + t;
      RemoveAllAppend(s[1..], t, o);
    } else {
      assert s + t == t;
    }
  }

  /** Unsubscribing an observer that is not subscribed changes nothing. */
  lemma {:induction false} RemoveAllAbsent<T>(s: seq<T>, o: T)
    requires o !in s
    ensures RemoveAll(s, o) == s
  {
    if s != [] {
      RemoveAllAbsent(s[1..], o);
    }
  }

  /** Unsubscribing twice is the same as unsubscribing once. */
  lemma RemoveAllIdempotent<T>(s: seq<T>, o: T)
    ensures RemoveAll(RemoveAll(s, o), o) == RemoveAll(s, o)
  {
    RemoveAllAbsent(RemoveAll(s, o), o);
  }

  /** Subscribing o and then unsubscribing it leaves the list as unsubscribing alone. */
  lemma SubscribeThenUnsubscribe<T>(s: seq<T>, o: T)
    ensures RemoveAll(s + [o], o) == RemoveAll(s, o)
  {
    RemoveAllAppend(s, [o], o);
    assert RemoveAll([o], o) == [];
  }

  /** Unsubscribing o does not disturb an observer p subscribed after it. */
  lemma UnsubscribeOther<T>(s: seq<T>, o: T, p: T)
    requires p != o
    ensures RemoveAll(s + [p], o) == RemoveAll(s, o) + [p]
  {
    RemoveAllAppend(s, [p], o);
    assert RemoveAll([p], o) == [p];
  }
}
