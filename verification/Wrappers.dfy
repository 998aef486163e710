/** Failure-carrying results shared by the modules of the model. */
module Wrappers {
  datatype Option<+T> = None | Some(value: T)

  /** `Failure` stands for the exception the source raises; the text is its reason code. */
  datatype Result<+T> = Success(value: T) | Failure(reason: string)

  /** A non-empty set has a member to take. */
  lemma {:induction false} Member<T>(s: set<T>) returns (x: T)
    requires s != {}
    ensures x in s
  {
    x :| x in s;
  }

  // ---- concatenation ----

  lemma {:induction false} Assoc<T>(a: seq<T>, b: seq<T>, c: seq<T>)
    ensures (a + b) + c == a + (b + c)
  {
  }

  lemma {:induction false} AssocFour<T>(a: seq<T>, b: seq<T>, c: seq<T>, d: seq<T>)
    ensures ((a + b) + c) + d == a + ((b + c) + d)
    ensures (a + (b + c)) + d == a + (b + (c + d))
  {
  }

  lemma {:induction false} DropFirst<T>(a: seq<T>, b: seq<T>)
    requires a != []
    ensures (a + b)[0] == a[0] && (a + b)[1..] == a[1..] + b
    ensures a == [a[0]] + a[1..]
  {
  }
}
