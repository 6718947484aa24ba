/** Strict total orders, and the lexicographic order that one induces on sequences. */
module Order {

  ghost predicate StrictTotal<T(!new)>(less: (T, T) -> bool) {
    && (forall x :: !less(x, x))
    && (forall x, y, z :: less(x, y) && less(y, z) ==> less(x, z))
    && (forall x, y :: x != y ==> less(x, y) || less(y, x))
  }

  /** The first difference decides; a proper prefix comes first. */
  predicate Lex<T(==)>(less: (T, T) -> bool, a: seq<T>, b: seq<T>) {
    if b == [] then false
    else if a == [] then true
    else if a[0] != b[0] then less(a[0], b[0])
    else Lex(less, a[1..], b[1..])
  }

  lemma {:induction false} LexIrreflexive<T(!new)>(less: (T, T) -> bool, a: seq<T>)
    ensures !Lex(less, a, a)
  {
    if a != [] {
      LexIrreflexive(less, a[1..]);
    }
  }

  lemma {:induction false} LexTransitive<T(!new)>(less: (T, T) -> bool, a: seq<T>, b: seq<T>, c: seq<T>)
    requires StrictTotal(less) && Lex(less, a, b) && Lex(less, b, c)
    ensures Lex(less, a, c)
  {
    if a != [] && a[0] == b[0] == c[0] {
      LexTransitive(less, a[1..], b[1..], c[1..]);
    } else if a != [] {
      assert less(a[0], b[0]) || less(b[0], c[0]);
    }
  }

  lemma {:induction false} LexConnected<T(!new)>(less: (T, T) -> bool, a: seq<T>, b: seq<T>)
    requires StrictTotal(less) && a != b
    ensures Lex(less, a, b) || Lex(less, b, a)
  {
    if a != [] && b != [] && a[0] == b[0] {
      assert a == [a[0]] + a[1..] && b == [b[0]] + b[1..];
      LexConnected(less, a[1..], b[1..]);
    }
  }

  /** Where a lexicographic comparison is decided. */
  ghost predicate FirstDifference<T(!new)>(less: (T, T) -> bool, a: seq<T>, b: seq<T>, i: nat) {
    && i <= |a| && i < |b|
    && a[..i] == b[..i]
    && (i == |a| || (a[i] != b[i] && less(a[i], b[i])))
  }

  /** The recursive order is the one that looks for the first difference. */
  lemma {:induction false} LexIsFirstDifference<T(!new)>(less: (T, T) -> bool, a: seq<T>, b: seq<T>)
    ensures Lex(less, a, b) <==> exists i: nat :: FirstDifference(less, a, b, i)
  {
    if a != [] && b != [] && a[0] == b[0] {
      LexIsFirstDifference(less, a[1..], b[1..]);
      if i: nat :| FirstDifference(less, a[1..], b[1..], i) {
        assert a[..i + 1] == [a[0]] + a[1..][..i] && b[..i + 1] == [b[0]] + b[1..][..i];
        assert FirstDifference(less, a, b, i + 1);
      }
      if i: nat :| FirstDifference(less, a, b, i) {
        assert i > 0;
        assert a[1..][..i - 1] == a[..i][1..] && b[1..][..i - 1] == b[..i][1..];
        assert FirstDifference(less, a[1..], b[1..], i - 1);
      }
    } else if b != [] {
      if i: nat :| FirstDifference(less, a, b, i) {
        assert forall k :: 0 <= k < i ==> a[k] == a[..i][k] == b[..i][k] == b[k];
      }
      if Lex(less, a, b) {
        assert FirstDifference(less, a, b, 0);
      }
    }
  }

  predicate CharLess(a: char, b: char) { a < b }

  /** The texts differ first where `a` has the smaller character code, or `a` is a proper prefix of `b`. */
  ghost predicate EarlierText(a: string, b: string) {
    exists i: nat :: i <= |a| && i < |b| && a[..i] == b[..i] && (i == |a| || a[i] as int < b[i] as int)
  }

  /** Texts are ordered by the codes of their characters: the first difference decides. */
  lemma TextOrder(a: string, b: string)
    ensures Lex(CharLess, a, b) <==> EarlierText(a, b)
  {
    LexIsFirstDifference(CharLess, a, b);
    forall i: nat
      ensures FirstDifference(CharLess, a, b, i)
         <==> i <= |a| && i < |b| && a[..i] == b[..i] && (i == |a| || a[i] as int < b[i] as int)
    {
    }
  }
}
