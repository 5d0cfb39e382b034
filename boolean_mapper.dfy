/** ctkBooleanMapper as used by the settings panel: a view over a check
    box's "checked" property that exposes its logical complement as a
    property of its own, so that the panel can register the complement under
    a key without the check box knowing. */
module BooleanMappers {

  /** The bound object: a check box and its "checked" property. A new check
      box is unchecked. */
  class CheckBox {
    var checked: bool

    constructor ()
      ensures !checked
    {
      checked := false;
    }

    /** setChecked: the only state change; the change signal is the
        caller's to forward. */
    method SetChecked(b: bool)
      modifies this
      ensures checked == b
    {
      checked := b;
    }
  }

  /** The complement of a checked state, and back: each undoes the other. */
  function Complement(checked: bool): bool
  {
    !checked
  }

  function CheckedFor(complement: bool): bool
  {
    !complement
  }

  class BooleanMapper {
    const box: CheckBox

    constructor (box: CheckBox)
      ensures this.box == box
    {
      this.box := box;
    }

    /** The "complement" property: always the negation of the box's state. */
    function ComplementValue(): (c: bool)
      reads box
      ensures c != box.checked
    {
      Complement(box.checked)
    }

    /** Writing the "complement" property writes the negated value into the
        check box; reading it back gives the value written. */
    method SetComplement(c: bool)
      modifies box
      ensures box.checked == CheckedFor(c)
      ensures ComplementValue() == c
    {
      box.checked := CheckedFor(c);
    }
  }

  /** Reading the complement after writing it returns what was written, and
      writing the complement of what is read leaves the box as it was. */
  lemma ComplementRoundTrip(c: bool, checked: bool)
    ensures Complement(CheckedFor(c)) == c
    ensures CheckedFor(Complement(checked)) == checked
  {
  }
}
