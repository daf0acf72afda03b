/** checkMetaValue and updateMetaValue: a range check, or a range widening,
    on an annotation, performed only when the annotation exists. */
module MetaValues {
  import opened Ranges

  /** The check's verdict and whether the key existed (the key_exists
      out-parameter). */
  datatype MetaCheck = MetaCheck(pass: bool, keyExists: bool)

  function CheckMetaValue(meta: map<string, real>, key: string, b: Bounds): (r: MetaCheck)
    ensures r.keyExists <==> key in meta
    // an absent annotation passes
    ensures r.pass <==> key !in meta || CheckRange(meta[key], b)
    // so a failure is always a counted test
    ensures !r.pass ==> r.keyExists
  {
    if key in meta then MetaCheck(CheckRange(meta[key], b), true)
    else MetaCheck(true, false)
  }

  /** The range widened to the annotation's value; unchanged when the
      annotation is absent. */
  function UpdateMetaValue(meta: map<string, real>, key: string, b: Bounds): (r: Bounds)
    ensures Widens(b, r)
    ensures key in meta ==> CheckRange(meta[key], r)
    ensures key !in meta ==> r == b
  {
    if key in meta then UpdateRange(meta[key], b) else b
  }
}
