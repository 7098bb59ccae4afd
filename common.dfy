/** Shared vocabulary of the PDF service model: bytes, optional values,
    the opaque page type and the decimal rendering of numbers that the
    handlers put into their messages. */
module Common {

  /** One byte of a file, as Node's Buffer holds it. */
  newtype Byte = b: int | 0 <= b < 256

  /** A page of a PDF document. The codec gives pages no structure the
      service looks at, so the model keeps them opaque. */
  type Page(==)

  /** A path on the local file system, such as "./pdf/<id>.pdf". */
  type Path = string

  datatype Option<+T> = None | Some(value: T)

  /** A value or the message of the error the source throws instead. */
  datatype Result<+T> = Ok(value: T) | Err(error: string)

  /** Success or the message of the error the source throws instead. */
  datatype Outcome = Pass | Fail(error: string)

  /** The PDF codec (pdf-lib's PDFDocument.load and save): `load` may
      reject the bytes with an error message, `save` always succeeds. */
  datatype Codec = Codec(load: seq<Byte> -> Result<seq<Page>>, save: seq<Page> -> seq<Byte>)

  /** Decimal digits of a natural number, most significant first, as
      JavaScript's template strings render a whole number. */
  function NatToString(n: nat): (s: string)
    ensures |s| >= 1
    ensures forall i :: 0 <= i < |s| ==> '0' <= s[i] <= '9'
    ensures |s| > 1 ==> s[0] != '0'
    decreases n
  {
    var d := [(('0' as int) + n % 10) as char];
    if n < 10 then d else NatToString(n / 10) + d
  }

  /** A whole number as JavaScript renders it: a leading '-' when negative. */
  function IntToString(n: int): (s: string)
    ensures |s| >= 1
    ensures (s[0] == '-') <==> n < 0
    ensures n < 0 ==> |s| >= 2
    ensures forall i :: (if n < 0 then 1 else 0) <= i < |s| ==> '0' <= s[i] <= '9'
  {
    if n < 0 then "-" + NatToString(-n) else NatToString(n)
  }

  /** The value a string of decimal digits denotes, read most significant
      digit first: the reference reading the renderings are checked against. */
  function DecimalValue(s: string): nat
    requires forall i :: 0 <= i < |s| ==> '0' <= s[i] <= '9'
  {
    if s == [] then 0
    else DecimalValue(s[..|s| - 1]) * 10 + (s[|s| - 1] as int - '0' as int)
  }

  /** Reading back the digits of a rendered natural number gives the number. */
  lemma {:induction false} NatToStringRoundTrip(n: nat)
    ensures DecimalValue(NatToString(n)) == n
    decreases n
  {
    var s := NatToString(n);
    if n >= 10 {
      NatToStringRoundTrip(n / 10);
      assert s[..|s| - 1] == NatToString(n / 10);
    }
  }

  /** Distinct numbers are rendered differently. */
  lemma NatToStringInjective(m: nat, n: nat)
    ensures NatToString(m) == NatToString(n) <==> m == n
  {
    NatToStringRoundTrip(m);
    NatToStringRoundTrip(n);
  }

  /** A rendered whole number reads back as itself: its sign, then its
      magnitude in decimal. */
  lemma IntToStringRoundTrip(n: int)
    ensures var s := IntToString(n);
      if n < 0 then s[0] == '-' && s[1..] == NatToString(-n) && DecimalValue(s[1..]) == -n
      else DecimalValue(s) == n
  {
    if n < 0 {
      NatToStringRoundTrip(-n);
      assert IntToString(n)[1..] == NatToString(-n);
    } else {
      NatToStringRoundTrip(n);
    }
  }
}
