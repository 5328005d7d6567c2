/** The `Short` parameter annotation (src/slashed/annotations.py): a frozen
    record holding a one-letter shorthand, validated when it is built. */
module Annotations {
  import opened Wrappers
  import opened Builtins
  import Base

  /** Python's `repr` of a string, for strings needing no escapes. */
  function Repr(s: string): string {
    "'" + s + "'"
  }

  /** A `Short` marker. Frozen: once built, `ch` never changes. */
  datatype Short = Short(ch: string)

  /** What every constructed `Short` holds: exactly one alphabetic character. */
  predicate Valid(s: Short) {
    |s.ch| == 1 && IsAlpha(s.ch[0])
  }

  /** `Short(char)`: the dataclass constructor followed by `__post_init__`,
      which raises `ValueError` for anything but one alphabetic character,
      checking the length first. */
  function NewShort(ch: string): (r: Result<Short, Base.Exception>)
    ensures r.Ok? <==> |ch| == 1 && IsAlpha(ch[0])
    ensures r.Ok? ==> Valid(r.value) && r.value.ch == ch
    ensures |ch| != 1 ==> r == Err(Base.ValueError("Short must be a single character, got: " + Repr(ch)))
    ensures |ch| == 1 && !IsAlpha(ch[0]) ==>
      r == Err(Base.ValueError("Short must be an alphabetic character, got: " + Repr(ch)))
  {
    if |ch| != 1 then Err(Base.ValueError("Short must be a single character, got: " + Repr(ch)))
    else if !IsAlpha(ch[0]) then Err(Base.ValueError("Short must be an alphabetic character, got: " + Repr(ch)))
    else Ok(Short(ch))
  }

  /** The length check comes first: a two-digit string is reported as too
      long, not as non-alphabetic. */
  lemma LengthCheckedFirst()
    ensures NewShort("12") == Err(Base.ValueError("Short must be a single character, got: '12'"))
    ensures NewShort("1") == Err(Base.ValueError("Short must be an alphabetic character, got: '1'"))
    ensures NewShort("v").Ok?
  {
    assert "Short must be a single character, got: " + Repr("12")
      == "Short must be a single character, got: '12'";
    assert "Short must be an alphabetic character, got: " + Repr("1")
      == "Short must be an alphabetic character, got: '1'";
  }
}
