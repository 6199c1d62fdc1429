/** The letters that stand for the access flags in the text form of a right. */
module Letters {
  import opened Access
  import opened Wrappers

  const LETTERS: seq<char> := ['M', 'R', 'U', 'P', 'm', 'r', 'u', 'p']

  function Letter(flag: Flag): char {
    match flag
    case Create => 'M'
    case Read => 'R'
    case Update => 'U'
    case Delete => 'P'
    case CantCreate => 'm'
    case CantRead => 'r'
    case CantUpdate => 'u'
    case CantDelete => 'p'
  }

  /** The two tables agree: only letters of flags name one, and they name the right one. */
  function FlagOf(c: char): (flag: Option<Flag>)
    ensures flag.Some? ==> Letter(flag.value) == c
    ensures flag.None? ==> forall f :: Letter(f) != c
  {
    match c
    case 'M' => Some(Create)
    case 'R' => Some(Read)
    case 'U' => Some(Update)
    case 'P' => Some(Delete)
    case 'm' => Some(CantCreate)
    case 'r' => Some(CantRead)
    case 'u' => Some(CantUpdate)
    case 'p' => Some(CantDelete)
    case _ => None
  }

  lemma LettersDiffer(f: Flag, g: Flag)
    ensures Letter(f) == Letter(g) ==> f == g
    ensures FlagOf(Letter(f)) == Some(f)
  {
  }
}
