/** The JSON scalars the program reads out of API responses, with the two
    Python operations it applies to them: == against an int literal and
    str() inside an f-string. */
module Json {
  import opened Text

  /** A decoded JSON value. A number with an integral value is an Int,
      since Python's 1.0 == 1 and the program only compares numbers with
      ==; any other number, and arrays and objects, are kept only as the
      text str() gives for them, which never equals an int. */
  datatype Value = Null | Bool(b: bool) | Int(i: int) | Str(s: string) | Composite(text: string)

  /** Python's value == n for an int n: True and False compare as 1 and 0,
      strings, None, lists and dicts never equal an int. */
  predicate EqualsInt(v: Value, n: int) {
    match v
    case Bool(b) => (if b then 1 else 0) == n
    case Int(i) => i == n
    case _ => false
  }

  /** Python's str(value). */
  function ToStr(v: Value): (r: string)
    ensures v.Int? ==> r == IntToString(v.i)
    ensures v.Str? ==> r == v.s
  {
    match v
    case Null => "None"
    case Bool(b) => if b then "True" else "False"
    case Int(i) => IntToString(i)
    case Str(s) => s
    case Composite(t) => t
  }

  /** A JSON string never equals an int, even when it spells that int. */
  lemma StringNeverEqualsInt(n: int)
    ensures !EqualsInt(Str(IntToString(n)), n)
  {
  }
}
