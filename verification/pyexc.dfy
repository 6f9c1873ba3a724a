/** The Python exception classes raised and caught by the two entry points. */
module PyExc {
  import opened Wrappers

  datatype ExcClass =
    | Exception
    | ValueError
    | JSONDecodeError
    | LookupError
    | KeyError
    | TypeError
    | AttributeError
    | OSError
    | FileNotFoundError

  /** The direct base class of each built-in class (`Exception` is the root here). */
  function Parent(c: ExcClass): Option<ExcClass> {
    match c
    case Exception => None
    case ValueError => Some(Exception)
    case JSONDecodeError => Some(ValueError)
    case LookupError => Some(Exception)
    case KeyError => Some(LookupError)
    case TypeError => Some(Exception)
    case AttributeError => Some(Exception)
    case OSError => Some(Exception)
    case FileNotFoundError => Some(OSError)
  }

  function Depth(c: ExcClass): nat {
    match Parent(c)
    case None => 0
    case Some(p) => 1 + match Parent(p) case None => 0 case Some(_) => 1
  }

  /** `issubclass(c, d)`: what an `except d:` clause catches. */
  predicate IsSubclass(c: ExcClass, d: ExcClass)
    decreases Depth(c)
  {
    c == d || (Parent(c).Some? && IsSubclass(Parent(c).value, d))
  }

  /** A raised exception: its class and `str(e)`. */
  datatype Exc = Exc(cls: ExcClass, msg: string)

  /**
   * `except json.JSONDecodeError` does not catch a plain `ValueError`,
   * while `except Exception` catches everything raised here.
   */
  lemma CatchClauses(c: ExcClass)
    ensures IsSubclass(c, Exception)
    ensures IsSubclass(c, JSONDecodeError) <==> c == JSONDecodeError
    ensures IsSubclass(c, KeyError) <==> c == KeyError
    ensures IsSubclass(c, ValueError) <==> c in {ValueError, JSONDecodeError}
  {
  }
}
