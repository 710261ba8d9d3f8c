/**
  Slot reference: an optional arena index stored in one machine word. The
  largest `usize` value is reserved as the "no slot" sentinel, so a present
  index is any other value.
*/
module Key {
  import opened Wrappers

  /** `usize::MAX` on a 64-bit target: the sentinel meaning "none". */
  const USIZE_MAX: nat := 0xFFFF_FFFF_FFFF_FFFF

  /** The word held by the reference; `raw == USIZE_MAX` encodes "none". */
  datatype OptionKey = OptionKey(raw: nat)
  {
    /** Decodes the word: `None` for the sentinel, the index otherwise. */
    function Get(): (r: Option<nat>)
      ensures r == None <==> raw == USIZE_MAX
      ensures r.Some? ==> r.value != USIZE_MAX && this == OptionKey(r.value)
    {
      if raw == USIZE_MAX then None else Some(raw)
    }

    /** The index held by a present reference (a debug assertion in the source). */
    function Unwrap(): (k: nat)
      requires raw != USIZE_MAX
      ensures Get() == Some(k)
    {
      raw
    }

    /**
      Claims an empty reference for index `x`. The first component says whether
      the claim happened; the second is the reference afterwards.
    */
    function InsertIfNone(x: nat): (res: (bool, OptionKey))
      requires x != USIZE_MAX
      ensures res.0 <==> Get() == None
      ensures res.0 ==> res.1.Get() == Some(x)
      ensures !res.0 ==> res.1 == this
    {
      if raw == USIZE_MAX then (true, OptionKey(x)) else (false, this)
    }

    /** Comparison of a reference with a plain index (`PartialEq<usize>`). */
    function Is(k: nat): (b: bool)
      ensures k != USIZE_MAX ==> (b <==> Get() == Some(k))
      ensures b ==> raw == k
    {
      raw == k
    }
  }

  /** The empty reference. */
  function NoneKey(): (k: OptionKey)
    ensures k.raw == USIZE_MAX && k.Get() == None
  {
    OptionKey(USIZE_MAX)
  }

  /** A present reference to index `x`; `x` may not be the sentinel. */
  function NewKey(x: nat): (k: OptionKey)
    requires x != USIZE_MAX
    ensures k.raw == x && k != NoneKey() && k.Get() == Some(x)
  {
    OptionKey(x)
  }

  /** `Default` for a reference is the empty reference. */
  function DefaultKey(): (k: OptionKey)
    ensures k.Get() == None
  {
    NoneKey()
  }

  /** Round trip through `new` and `get`/`unwrap`, and `get` of the empty reference. */
  lemma NewGetUnwrap(x: nat)
    requires x != USIZE_MAX
    ensures NewKey(x).Get() == Some(x)
    ensures NewKey(x).Unwrap() == x
    ensures NoneKey().Get() == None && DefaultKey() == NoneKey()
  {
  }

  /** `insert_if_none` on an empty reference sets it; on a present one it changes nothing. */
  lemma InsertIfNoneCases(k: OptionKey, x: nat)
    requires x != USIZE_MAX
    ensures NoneKey().InsertIfNone(x) == (true, NewKey(x))
    ensures k.Get().Some? ==> k.InsertIfNone(x) == (false, k)
  {
  }
}
