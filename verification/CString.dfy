/** Optional values: a C pointer that may be NULL, or a search that may fail. */
module Options {
  datatype Option<+T> = None | Some(value: T)
}

/** The order strcmp puts on C strings. */
module CString {

  /** The sign of strcmp(a, b): -1, 0 or 1. */
  function Strcmp(a: string, b: string): (r: int)
    ensures r == -1 || r == 0 || r == 1
  {
    if a == [] then (if b == [] then 0 else -1)
    else if b == [] then 1
    else if a[0] < b[0] then -1
    else if a[0] > b[0] then 1
    else Strcmp(a[1..], b[1..])
  }

  predicate Less(a: string, b: string) {
    Strcmp(a, b) < 0
  }

  lemma {:induction false} StrcmpZeroIsEqual(a: string, b: string)
    ensures Strcmp(a, b) == 0 <==> a == b
  {
    if a != [] && b != [] && a[0] == b[0] {
      StrcmpZeroIsEqual(a[1..], b[1..]);
      assert a == [a[0]] + a[1..] && b == [b[0]] + b[1..];
    }
  }

  lemma {:induction false} StrcmpAntisymmetric(a: string, b: string)
    ensures Strcmp(a, b) == -Strcmp(b, a)
  {
    if a != [] && b != [] && a[0] == b[0] {
      StrcmpAntisymmetric(a[1..], b[1..]);
    }
  }

  lemma {:induction false} LessTransitive(a: string, b: string, c: string)
    requires Less(a, b) && Less(b, c)
    ensures Less(a, c)
  {
    if a != [] && b != [] && c != [] && a[0] == b[0] && b[0] == c[0] {
      LessTransitive(a[1..], b[1..], c[1..]);
    }
  }

  /** a and b agree up to i, and there a ends or has the smaller character. */
  ghost predicate LessAt(a: string, b: string, i: nat) {
    i <= |a| && i < |b| && (forall j :: 0 <= j < i ==> a[j] == b[j]) && (i == |a| || a[i] < b[i])
  }

  /** The first difference decides. */
  lemma {:induction false} LessIff(a: string, b: string)
    ensures Less(a, b) <==> exists i: nat :: LessAt(a, b, i)
  {
    if a != [] && b != [] && a[0] == b[0] {
      LessIff(a[1..], b[1..]);
      if Less(a, b) {
        var i: nat :| LessAt(a[1..], b[1..], i);
        assert forall j :: 1 <= j < i + 1 ==> a[j] == a[1..][j - 1] && b[j] == b[1..][j - 1];
        assert LessAt(a, b, i + 1);
      }
      if i: nat :| LessAt(a, b, i) {
        assert i > 0;
        assert LessAt(a[1..], b[1..], i - 1);
      }
    } else {
      if Less(a, b) { assert LessAt(a, b, 0); }
      assert forall i: nat :: LessAt(a, b, i) ==> i == 0;
    }
  }

  /** Exactly one of a < b, a == b, b < a. */
  lemma LessTotal(a: string, b: string)
    ensures Less(a, b) ==> a != b && !Less(b, a)
    ensures Less(a, b) || a == b || Less(b, a)
  {
    StrcmpZeroIsEqual(a, b);
    StrcmpAntisymmetric(a, b);
  }
}
