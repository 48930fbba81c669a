/** `BaseDocument`: every stored document has a string `_id`, its primary key.
    When a document is constructed without an `_id` keyword, a fresh id is
    generated, as `str(ObjectId())` does: 24 lower-case hexadecimal digits.
    The generator is modelled as a counter whose successive values are
    printed in hexadecimal, which makes every issued id distinct. */
module BaseDocument {

  import opened Common

  const HEX_DIGITS: string := "0123456789abcdef"

  /** Width of `str(ObjectId())`. */
  const OBJECT_ID_WIDTH: nat := 24

  function Pow16(n: nat): (p: nat)
    ensures p >= 1
  {
    if n == 0 then 1 else 16 * Pow16(n - 1)
  }

  predicate IsHexDigit(c: char) {
    ('0' <= c <= '9') || ('a' <= c <= 'f')
  }

  function HexValue(c: char): nat
    requires IsHexDigit(c)
  {
    if '0' <= c <= '9' then c as int - '0' as int else c as int - 'a' as int + 10
  }

  /** `n` in lower-case hexadecimal, zero-padded on the left to at least `width` digits. */
  function Hex(n: nat, width: nat): (s: string)
    ensures |s| >= width && (forall i :: 0 <= i < |s| ==> IsHexDigit(s[i]))
    decreases n + width
  {
    if n == 0 && width == 0 then ""
    else Hex(n / 16, if width > 0 then width - 1 else 0) + [HEX_DIGITS[n % 16]]
  }

  /** The value of a string of hexadecimal digits. */
  function FromHex(s: string): nat
    requires forall i :: 0 <= i < |s| ==> IsHexDigit(s[i])
  {
    if s == [] then 0 else 16 * FromHex(s[..|s| - 1]) + HexValue(s[|s| - 1])
  }

  /** A number below `16^width` takes exactly `width` digits. */
  lemma {:induction false} HexWidth(n: nat, width: nat)
    requires n < Pow16(width)
    ensures |Hex(n, width)| == width
    decreases width
  {
    if width > 0 {
      HexWidth(n / 16, width - 1);
    }
  }

  /** Reading the digits back gives the number: the encoding loses nothing. */
  lemma {:induction false} FromHexHex(n: nat, width: nat)
    ensures FromHex(Hex(n, width)) == n
    decreases n + width
  {
    if !(n == 0 && width == 0) {
      var w := if width > 0 then width - 1 else 0;
      FromHexHex(n / 16, w);
      var s := Hex(n, width);
      assert s[..|s| - 1] == Hex(n / 16, w);
    }
  }

  /** At a fixed width, different numbers print differently. */
  lemma HexInjective(a: nat, b: nat, width: nat)
    ensures Hex(a, width) == Hex(b, width) <==> a == b
  {
    if Hex(a, width) == Hex(b, width) {
      FromHexHex(a, width);
      FromHexHex(b, width);
    }
  }

  /** The id printed for the `n`-th generated document. */
  function ObjectId(n: nat): (id: string)
    ensures |id| >= OBJECT_ID_WIDTH
  {
    Hex(n, OBJECT_ID_WIDTH)
  }

  /** Different generator states print different ids. */
  lemma ObjectIdInjective(a: nat, b: nat)
    ensures ObjectId(a) == ObjectId(b) <==> a == b
  {
    HexInjective(a, b, OBJECT_ID_WIDTH);
  }

  /** `generate_unique_id`: the source of fresh document ids. */
  class IdSource {
    var next: nat
    /** Every id handed out so far. */
    ghost var issued: set<string>

    ghost predicate Valid()
      reads this
    {
      issued == set k | 0 <= k < next :: ObjectId(k)
    }

    constructor ()
      ensures Valid() && next == 0 && issued == {}
    {
      next := 0;
      issued := {};
    }

    /** `str(ObjectId())`: an id never handed out before. */
    method Generate() returns (id: string)
      requires Valid()
      modifies this
      ensures Valid()
      ensures next == old(next) + 1
      ensures id !in old(issued) && issued == old(issued) + {id}
    {
      id := ObjectId(next);
      forall k | 0 <= k < next
        ensures ObjectId(k) != id
      {
        ObjectIdInjective(k, next);
      }
      next := next + 1;
      issued := issued + {id};
    }
  }

  /** `BaseDocument.__init__`: the `_id` keyword is kept as given; without it a
      fresh id is generated. Nothing is generated when the keyword is there. */
  method AssignId(ids: IdSource, idKeyword: Option<string>) returns (id: string)
    requires ids.Valid()
    modifies ids
    ensures ids.Valid()
    ensures idKeyword.Some? ==> id == idKeyword.value && ids.next == old(ids.next) && ids.issued == old(ids.issued)
    ensures idKeyword.None? ==> ids.next == old(ids.next) + 1
    ensures idKeyword.None? ==> id !in old(ids.issued) && ids.issued == old(ids.issued) + {id}
  {
    if idKeyword.Some? {
      id := idKeyword.value;
    } else {
      id := ids.Generate();
    }
  }
}
