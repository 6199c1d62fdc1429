/**
 The access byte of the authorization engine as the set of its eight flags: four permissions in the low nibble, the four
 matching prohibitions in the high one. Bitwise and, or, and-not are intersection, union and difference.
 */
module Access {
  datatype Flag =
    | Create | Read | Update | Delete
    | CantCreate | CantRead | CantUpdate | CantDelete

  type Access = set<Flag>

  /** The low nibble, 15. */
  const FULL: Access := {Create, Read, Update, Delete}

  /** The flags in the order in which loops go through the bits. */
  const FLAGS: seq<Flag> := [Create, Read, Update, Delete, CantCreate, CantRead, CantUpdate, CantDelete]

  /** The flag four bits higher. */
  function Denial(flag: Flag): Flag {
    match flag
    case Create => CantCreate
    case Read => CantRead
    case Update => CantUpdate
    case _ => CantDelete
  }

  /** The byte value is above 15. */
  predicate HasDenials(access: Access) {
    !(access <= FULL)
  }

  /** What a permission record really allows: its own deny nibble is taken away from its allow nibble. */
  function Effective(access: Access): Access {
    if HasDenials(access) then set flag | flag in access && flag in FULL && Denial(flag) !in access else access
  }

  lemma EffectiveFlag(access: Access, flag: Flag)
    ensures flag in Effective(access) && flag in FULL <==> flag in access && flag in FULL && Denial(flag) !in access
  {
    if flag in FULL && !HasDenials(access) {
      assert Denial(flag) !in FULL;
    }
  }

  /** What an entry is asked to carry: one flag, or nothing in particular. */
  datatype Mark = Any | Has(flag: Flag)

  predicate Carries(access: Access, mark: Mark) {
    mark.Has? ==> mark.flag in access
  }

  lemma SubsetCardinality<T>(a: set<T>, b: set<T>)
    requires a <= b
    ensures |a| <= |b| && (a != b ==> |a| < |b|)
  {
    assert b == a + (b - a);
  }
}
