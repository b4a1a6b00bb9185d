/** Python values as they reach the ledger and the dispatcher: optional keys of
    the extractor's JSON object, the exceptions the core can raise, and the
    string helpers the replies are built from. */
module Values {

  datatype Option<T> = None | Some(value: T)

  /** One key of a JSON object: missing, present with `null`, or present with
      a value. `dict.get` tells the first two apart only when it is given a
      default. */
  datatype Field<T> = Absent | Null | Given(value: T)
  {
    /** `d.get(k)`: a missing key and a null both read as Python's None. */
    function OrNone(): Option<T>
    {
      if Given? then Some(value) else None
    }

    /** `d.get(k, default)`: only a missing key reads as the default. */
    function OrDefault(default: T): Option<T>
    {
      match this
      case Absent => Some(default)
      case Null => None
      case Given(v) => Some(v)
    }
  }

  /** `x or 0` on a number that may be None (a zero stays zero). */
  function OrZero(x: Option<real>): real
  {
    if x.Some? then x.value else 0.0
  }

  /** The exceptions the core raises on malformed extractor data. */
  datatype Error = KeyError | TypeError

  datatype Result<T> = Success(value: T) | Failure(error: Error)

  /** How an f-string renders a value that is a string or None. */
  function StrOf(s: Option<string>): string
  {
    if s.Some? then s.value else "None"
  }

  /** `sep.join(parts)`. */
  function Join(sep: string, parts: seq<string>): string
    decreases |parts|
  {
    if |parts| == 0 then ""
    else if |parts| == 1 then parts[0]
    else Join(sep, parts[..|parts| - 1]) + sep + parts[|parts| - 1]
  }

  /** `part` appears in `s` starting at index `k`. */
  predicate OccursAt(part: string, s: string, k: int)
  {
    0 <= k <= |s| - |part| && s[k..k + |part|] == part
  }

  /** `part` appears in `s` as a contiguous piece. */
  ghost predicate Occurs(part: string, s: string)
  {
    exists k :: OccursAt(part, s, k)
  }

  /** A piece of `s` is still a piece with text put before `s`. */
  lemma OccursAfter(part: string, a: string, s: string)
    requires Occurs(part, s)
    ensures Occurs(part, a + s)
  {
    var k :| OccursAt(part, s, k);
    assert (a + s)[|a| + k..|a| + k + |part|] == s[k..k + |part|];
    assert OccursAt(part, a + s, |a| + k);
  }

  /** A piece of `s` is still a piece with text put after `s`. */
  lemma OccursBefore(part: string, s: string, b: string)
    requires Occurs(part, s)
    ensures Occurs(part, s + b)
  {
    var k :| OccursAt(part, s, k);
    assert (s + b)[k..k + |part|] == s[k..k + |part|];
    assert OccursAt(part, s + b, k);
  }

  /** Every part is a piece of the joined string. */
  lemma {:induction false} JoinHasParts(sep: string, parts: seq<string>, j: nat)
    requires j < |parts|
    ensures Occurs(parts[j], Join(sep, parts))
    decreases |parts|
  {
    if |parts| == 1 {
      assert OccursAt(parts[j], Join(sep, parts), 0);
    } else {
      var init := parts[..|parts| - 1];
      var last := parts[|parts| - 1];
      var front := Join(sep, init);
      assert Join(sep, parts) == front + sep + last;
      if j == |parts| - 1 {
        var k := |front| + |sep|;
        assert (front + sep + last)[k..k + |last|] == last;
        assert OccursAt(last, Join(sep, parts), k);
      } else {
        JoinHasParts(sep, init, j);
        assert init[j] == parts[j];
        OccursBefore(parts[j], front, sep + last);
        assert front + (sep + last) == front + sep + last;
      }
    }
  }

  function DigitChar(d: nat): (c: char)
    requires d < 10
    ensures '0' <= c <= '9' && c as int - '0' as int == d
  {
    ('0' as int + d) as char
  }

  function DigitValue(c: char): nat
  {
    if '0' <= c <= '9' then c as int - '0' as int else 0
  }

  /** `str(n)` for a non-negative int: its decimal digits, no leading zero. */
  function NatToString(n: nat): (s: string)
    ensures |s| > 0
    ensures forall i :: 0 <= i < |s| ==> '0' <= s[i] <= '9'
    ensures |s| > 1 ==> s[0] != '0'
    decreases n
  {
    if n < 10 then [DigitChar(n)] else NatToString(n / 10) + [DigitChar(n % 10)]
  }

  /** `int(s)` on a string of decimal digits. */
  function ParseNat(s: string): nat
    decreases |s|
  {
    if s == [] then 0 else 10 * ParseNat(s[..|s| - 1]) + DigitValue(s[|s| - 1])
  }

  /** The rendered count can be read back: NatToString is injective. */
  lemma {:induction false} NatToStringRoundTrip(n: nat)
    ensures ParseNat(NatToString(n)) == n
    decreases n
  {
    var s := NatToString(n);
    if n >= 10 {
      assert s[..|s| - 1] == NatToString(n / 10);
      NatToStringRoundTrip(n / 10);
    }
  }
}
