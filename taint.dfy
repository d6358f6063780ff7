/** The taint of a log entry (log/taint.go) and its display colour. */
module LogTaint {
  import opened Bytes
  import opened Wrappers

  /** A taint is a byte; the six named values are consecutive from 0. */
  type Taint = byte

  const Normal: Taint := 0
  const Info: Taint := 1
  const Warning: Taint := 2
  const Error: Taint := 3
  const Fatal: Taint := 4
  const OK: Taint := 5

  /** The colours of the console palette a taint can select, as opaque distinct values. */
  datatype Color = NoColor | Blue | Yellow | Red | Magenta | Green

  /** `Taint.Color`: total over all 256 byte values. */
  function ColorOf(t: Taint): (c: Color)
    ensures c == NoColor <==> t == Normal || t > OK
  {
    if t == Info then Blue
    else if t == Warning then Yellow
    else if t == Error then Red
    else if t == Fatal then Magenta
    else if t == OK then Green
    else NoColor
  }

  /** The one taint that selects a colour, or None for the absence of colour. */
  function TaintOf(c: Color): (t: Option<Taint>)
  {
    match c
    case NoColor => None
    case Blue => Some(Info)
    case Yellow => Some(Warning)
    case Red => Some(Error)
    case Magenta => Some(Fatal)
    case Green => Some(OK)
  }

  /** Each colour other than NoColor comes from exactly one taint, and that taint is TaintOf. */
  lemma ColorOfInverse(t: Taint, c: Color)
    ensures ColorOf(t) == c && c != NoColor <==> TaintOf(c) == Some(t)
  {
  }

  /** Distinct named taints other than Normal have distinct colours. */
  lemma ColorOfInjective(t1: Taint, t2: Taint)
    requires Info <= t1 <= OK && Info <= t2 <= OK
    requires ColorOf(t1) == ColorOf(t2)
    ensures t1 == t2
  {
  }
}
