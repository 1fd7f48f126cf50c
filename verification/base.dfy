/** Shared vocabulary of the model: identifiers, instants, optional values and
    results, and a deterministic "smallest key" choice used wherever a SQL query
    returns one row out of several candidates. */
module Base {

  /** A `uuid.UUID`. Only equality matters to the system; the order of `nat`
      is used solely to break ties the database leaves unspecified. */
  type Uuid = nat

  /** A `time.Time`, treated as an opaque, ordered instant. */
  type Time = int

  datatype Option<+T> = None | Some(value: T)

  datatype Result<+T, +E> = Ok(value: T) | Err(error: E)

  /** Every non-empty finite set of naturals has a least element. */
  lemma {:induction false} HasLeast(s: set<nat>)
    requires s != {}
    ensures exists m :: m in s && forall y :: y in s ==> m <= y
    decreases |s|
  {
    var x :| x in s;
    var rest := s - {x};
    if rest == {} {
      assert s == {x};
      assert forall y :: y in s ==> x <= y;
    } else {
      HasLeast(rest);
      var m :| m in rest && forall y :: y in rest ==> m <= y;
      LeastOfAdded(rest, x, m);
      assert rest + {x} == s;
    }
  }

  /** Adding `x` to a set whose least element is `m`: the smaller of the two
      is least. */
  lemma LeastOfAdded(rest: set<nat>, x: nat, m: nat)
    requires m in rest && forall y :: y in rest ==> m <= y
    ensures exists l :: l in rest + {x} && forall y :: y in rest + {x} ==> l <= y
  {
    if x < m {
      assert x in rest + {x};
    } else {
      assert m in rest + {x};
    }
  }

  /** The least element of a non-empty set of identifiers. */
  function Least(s: set<nat>): (m: nat)
    requires s != {}
    ensures m in s
    ensures forall y :: y in s ==> m <= y
  {
    HasLeast(s);
    var m :| m in s && forall y :: y in s ==> m <= y; m
  }
}
