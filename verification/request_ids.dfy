/** Request identifiers of the form `REQ-NNNNNN` (app.js:497-500). */
module RequestIds {
  import opened Results
  import opened Strings

  const IdPrefix := "REQ-"
  const IdDigits: nat := 6
  /** `Math.floor(Math.random() * 999999) + 1` lies in 1..MaxIdNumber. */
  const MaxIdNumber := 999999

  /** The id for the drawn number: the number in decimal, left-padded with zeros to six digits. */
  function GenerateRequestId(num: int): (id: string)
    requires 1 <= num <= MaxIdNumber
    ensures |id| == |IdPrefix| + IdDigits && id[..|IdPrefix|] == IdPrefix
    ensures AllDigits(id[|IdPrefix|..])
    ensures ParseRequestId(id) == Some(num)
  {
    var d := NatToDecimal(num);
    Pow10Six();
    NatToDecimalLength(num, IdDigits);
    var digits := PadStart(d, IdDigits, '0');
    var z := digits[..IdDigits - |d|];
    assert digits == z + d;
    LeadingZerosValue(z, d);
    var id := IdPrefix + digits;
    id
  }

  /** Reads the number back out of a well-formed id. */
  function ParseRequestId(id: string): (r: Option<nat>)
    ensures r.Some? ==> |id| == |IdPrefix| + IdDigits && id[..|IdPrefix|] == IdPrefix
    ensures r.Some? ==> r.value <= MaxIdNumber
  {
    if |id| == |IdPrefix| + IdDigits && id[..|IdPrefix|] == IdPrefix && AllDigits(id[|IdPrefix|..]) then
      Pow10Six();
      DecimalValueBound(id[|IdPrefix|..]);
      Some(DecimalValue(id[|IdPrefix|..]))
    else
      None
  }

  lemma Pow10Six()
    ensures Pow10(6) == 1000000
  {
    assert Pow10(1) == 10;
    assert Pow10(3) == 1000;
    assert Pow10(5) == 100000;
  }

  /** Every well-formed id with a non-zero number is the one generated for that number. */
  lemma ParseThenGenerate(id: string, n: nat)
    requires ParseRequestId(id) == Some(n) && n >= 1
    ensures GenerateRequestId(n) == id
  {
    var g := GenerateRequestId(n);
    DecimalValueInjective(g[|IdPrefix|..], id[|IdPrefix|..]);
    assert g == g[..|IdPrefix|] + g[|IdPrefix|..];
    assert id == id[..|IdPrefix|] + id[|IdPrefix|..];
  }

  /** Different drawn numbers give different ids. */
  lemma GenerateInjective(a: int, b: int)
    requires 1 <= a <= MaxIdNumber && 1 <= b <= MaxIdNumber
    ensures GenerateRequestId(a) == GenerateRequestId(b) ==> a == b
  {
  }
}
