/** Day 17's `uint3_t`: an immutable value holding one program word of the
    three-bit computer. The value sits in a `uint8_t` field and construction
    refuses anything above 7. */
module ThreeBitWord {
  import opened Outcomes
  import opened Text

  /** `unsigned long`. */
  type ULong = n: nat | n < ULongLimit

  /** One more than the largest `uint8_t`. */
  const ByteLimit: nat := 256

  /** `uint8_t`. */
  type Byte = n: nat | n < ByteLimit

  /** The message of the `invalid_argument` thrown by the constructor. */
  const OutOfBounds: string := "uint3_t must be between 0 and 7"

  datatype Uint3 = Uint3(data: Byte) {
    /** `within_bounds`: the stored value fits three bits. */
    predicate WithinBounds() {
      data <= 7
    }

    /** `get`: the stored value. */
    function Get(): (r: Byte)
      ensures WithinBounds() ==> r <= 7
    {
      data
    }

    /** `operator int`: the stored value, widened. */
    function ToInt(): (r: int)
      ensures r == Get()
    {
      data
    }

    /** `operator==` against an `unsigned long long`: the stored value is
        compared after widening, so no other number is equal to it. */
    predicate Equals(other: nat) {
      data == other
    }
  }

  /** The constructor as written: the member initialiser narrows `num` into
      the `uint8_t` field, which keeps it modulo 256, and the bound is
      checked on what was kept. */
  function FromULongAsWritten(num: ULong): (r: Result<Uint3>)
    ensures r.Ok? <==> num % ByteLimit <= 7
    ensures r.Ok? ==> r.value.WithinBounds() && r.value.Get() == num % ByteLimit
    ensures r.Err? ==> r.message == OutOfBounds
  {
    var u := Uint3(num % ByteLimit);
    if !u.WithinBounds() then Err(OutOfBounds) else Ok(u)
  }

  /** The constructor as its error message describes it: a number above 7 is
      refused, any other is stored unchanged. */
  function FromULong(num: ULong): (r: Result<Uint3>)
    ensures r.Ok? <==> num <= 7
    ensures r.Ok? ==> r.value.WithinBounds() && r.value.Equals(num)
    ensures r.Err? ==> r.message == OutOfBounds
  {
    if num <= 7 then Ok(Uint3(num)) else Err(OutOfBounds)
  }

  /** Every value within bounds is what the constructor builds from its own
      `get`. */
  lemma FromULongGet(u: Uint3)
    requires u.WithinBounds()
    ensures FromULong(u.Get()) == Ok(u)
  {
  }

  /** A constructed value equals exactly the number it was built from. */
  lemma FromULongEquals(num: ULong, other: nat)
    requires FromULong(num).Ok?
    ensures FromULong(num).value.Equals(other) <==> other == num
  {
  }

  /** Below 256 the narrowing keeps the number, and the two constructors
      agree. */
  lemma AsWrittenAgrees(num: ULong)
    requires num < ByteLimit
    ensures FromULongAsWritten(num) == FromULong(num)
  {
  }

  /** 256 is accepted by the constructor as written, as a word that does not
      equal 256. */
  lemma AsWrittenAccepts256()
    ensures FromULongAsWritten(256) == Ok(Uint3(0))
    ensures !FromULongAsWritten(256).value.Equals(256)
    ensures FromULong(256).Err?
  {
  }
}
