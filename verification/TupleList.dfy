/** Growing list of 7-tuples (lsd.cpp: ntuple_list, enlarge_ntuple_list, add_7tuple). */
module TupleList {

  const DIM: nat := 7

  class NtupleList {
    var size: nat
    var maxSize: nat
    var values: array<real>

    ghost predicate Valid()
      reads this
    {
      size <= maxSize && 0 < maxSize && values.Length == DIM * maxSize
    }

    /** The tuples that are stored, one after the other. */
    ghost function Contents(): seq<real>
      reads this, values
      requires Valid()
    {
      values[..DIM * size]
    }

    constructor ()
      ensures Valid() && size == 0 && fresh(values) && Contents() == []
    {
      size, maxSize := 0, 1;
      values := new real[DIM];
    }

    /** Twice the room, the same tuples. */
    method Enlarge()
      requires Valid()
      modifies this
      ensures Valid() && maxSize == 2 * old(maxSize) && size == old(size)
      ensures fresh(values) && Contents() == old(Contents())
    {
      maxSize := maxSize * 2;
      var larger := new real[DIM * maxSize];
      forall i | 0 <= i < DIM * size {
        larger[i] := values[i];
      }
      values := larger;
    }

    method Add7Tuple(v: seq<real>)
      requires Valid() && |v| == DIM
      modifies this, values
      ensures Valid() && size == old(size) + 1
      ensures values == old(values) || fresh(values)
      ensures Contents() == old(Contents()) + v
    {
      if size == maxSize {
        Enlarge();
      }

      var base := size * DIM;
      forall i | 0 <= i < DIM {
        values[base + i] := v[i];
      }

      size := size + 1;
      assert values[..DIM * size] == values[..base] + values[base..base + DIM];
    }
  }
}
