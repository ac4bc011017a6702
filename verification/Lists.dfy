/** What the linked lists of the program are compared with. */
module Lists {

  ghost predicate Distinct<T>(l: seq<T>) {
    forall i, j :: 0 <= i < j < |l| ==> l[i] != l[j]
  }

  /** l without its j-th element. */
  function Without<T>(l: seq<T>, j: nat): seq<T>
    requires j < |l|
  {
    l[..j] + l[j + 1..]
  }
}
