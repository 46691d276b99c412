/**
 * A project-view section that holds a single value, and the builder the
 * project-view parser fills in before it builds the section.
 */
module ProjectViewSection {
  import opened Wrappers

  /** Identifies a kind of section; its contents are not looked at here. */
  datatype SectionKey = SectionKey(name: string)

  /** An immutable section holding one value, which may be null (`None`). */
  class ScalarSection<T> {
    const value: Option<T>

    constructor (value: Option<T>)
      ensures GetValue() == value
    {
      this.value := value;
    }

    function GetValue(): Option<T>
    {
      value
    }
  }

  /** Collects the value of a scalar section; holds null until `Set` is called. */
  class Builder<T> {
    const sectionKey: SectionKey
    var value: Option<T>

    constructor (sectionKey: SectionKey)
      ensures this.sectionKey == sectionKey && value == None
    {
      this.sectionKey := sectionKey;
      value := None;
    }

    /** Overwrites the stored value and returns this same builder, so that calls chain. */
    method Set(value: Option<T>) returns (self: Builder<T>)
      modifies this
      ensures this.value == value && self == this
    {
      this.value := value;
      self := this;
    }

    /** A new section holding the current value; the builder itself is left as it was. */
    method Build() returns (section: ScalarSection<T>)
      ensures fresh(section) && section.GetValue() == value
      ensures unchanged(this)
    {
      section := new ScalarSection(value);
    }
  }

  /** A fresh builder for sections of kind `sectionKey`. */
  method NewBuilder<T>(sectionKey: SectionKey) returns (builder: Builder<T>)
    ensures fresh(builder) && builder.sectionKey == sectionKey && builder.value == None
  {
    builder := new Builder(sectionKey);
  }

  /** A builder on which `Set` was never called builds a section whose value is null. */
  method BuildWithoutSet<T>(sectionKey: SectionKey) returns (section: ScalarSection<T>)
    ensures section.GetValue() == None
  {
    var builder := NewBuilder<T>(sectionKey);
    section := builder.Build();
  }

  /** Chained `Set` calls go to the same builder, and the section built afterwards holds the last value set. */
  method BuildAfterSets<T>(sectionKey: SectionKey, first: Option<T>, last: Option<T>) returns (section: ScalarSection<T>)
    ensures section.GetValue() == last
  {
    var builder := NewBuilder<T>(sectionKey);
    var same := builder.Set(first);
    same := same.Set(last);
    section := builder.Build();
  }

  /** Building twice gives two distinct sections, each holding the builder's value. */
  method BuildTwice<T>(builder: Builder<T>) returns (first: ScalarSection<T>, second: ScalarSection<T>)
    ensures first != second
    ensures first.GetValue() == builder.value && second.GetValue() == builder.value
  {
    first := builder.Build();
    second := builder.Build();
  }
}
