/**
 * Values shared by the preference-ranking core: item labels, trial records,
 * and the failure-carrying wrappers used for the source's exceptions.
 */
module Items {

  /** An item is an opaque label (a colour name); identity is exact string equality. */
  type Item = string

  /** A prompt template with the placeholders {A} and {B}. */
  type Template = string

  datatype Option<T> = None | Some(value: T)

  datatype Result<T, E> = Success(value: T) | Failure(error: E)

  /** One row of the results table: who was shown first, second, who won, under which template. */
  datatype Trial = Trial(player1: Item, player2: Item, winner: Item, template: Template)

  /** Dropping the last element of a concatenation drops the last element of its second part. */
  lemma SplitLast<T>(s: seq<T>, t: seq<T>)
    requires t != []
    ensures (s + t)[..|s + t| - 1] == s + t[..|t| - 1]
    ensures (s + t)[|s + t| - 1] == t[|t| - 1]
  {
  }

  /** No label occurs twice. */
  predicate Distinct(s: seq<Item>)
  {
    forall i, j :: 0 <= i < j < |s| ==> s[i] != s[j]
  }

  /** Python's `set(s)`. */
  function ItemSet(s: seq<Item>): set<Item>
  {
    set x | x in s
  }

  /** A list without repeats holds each label at most once, counted as a multiset. */
  lemma {:induction false} DistinctMultiplicity(s: seq<Item>, x: Item)
    requires Distinct(s)
    ensures multiset(s)[x] <= 1
  {
    if s != [] {
      assert s == [s[0]] + s[1..];
      assert Distinct(s[1..]) by {
        forall i, j | 0 <= i < j < |s[1..]| ensures s[1..][i] != s[1..][j] {
          assert s[1..][i] == s[i + 1] && s[1..][j] == s[j + 1];
        }
      }
      DistinctMultiplicity(s[1..], x);
      if x == s[0] {
        assert x !in s[1..] by {
          forall k | 0 <= k < |s[1..]| ensures s[1..][k] != x {
            assert s[1..][k] == s[k + 1];
          }
        }
        assert multiset(s[1..])[x] == 0;
      }
    }
  }

  /** Rearranging a list without repeats gives a list without repeats. */
  lemma DistinctPermutation(s: seq<Item>, t: seq<Item>)
    requires multiset(s) == multiset(t)
    requires Distinct(s)
    ensures Distinct(t)
  {
    forall i, j | 0 <= i < j < |t| ensures t[i] != t[j] {
      if t[i] == t[j] {
        var x := t[j];
        assert t[..j + 1] == t[..j] + [x];
        assert t == t[..j + 1] + t[j + 1..];
        assert x in t[..j] by { assert t[..j][i] == x; }
        assert multiset(t[..j])[x] >= 1;
        assert multiset(t)[x] >= 2;
        DistinctMultiplicity(s, x);
        assert false;
      }
    }
  }

  /** A list without repeats has as many labels as its set has members. */
  lemma {:induction false} DistinctSetSize(s: seq<Item>)
    requires Distinct(s)
    ensures |ItemSet(s)| == |s|
  {
    if s != [] {
      var tail := s[1..];
      assert Distinct(tail) by {
        forall i, j | 0 <= i < j < |tail| ensures tail[i] != tail[j] {
          assert tail[i] == s[i + 1] && tail[j] == s[j + 1];
        }
      }
      DistinctSetSize(tail);
      assert s[0] !in ItemSet(tail) by {
        forall k | 0 <= k < |tail| ensures tail[k] != s[0] {
          assert tail[k] == s[k + 1];
        }
      }
      assert ItemSet(s) == {s[0]} + ItemSet(tail) by {
        assert s == [s[0]] + tail;
      }
    }
  }
}
