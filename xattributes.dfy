/** The name/value attribute a tree node owns (XMLEditor/XAttribute.cs). */
module XAttributes {
  import opened Wrappers

  class XAttribute {
    var name: string
    /** The value; None models a null string. */
    var value: Option<string>

    constructor (name: string, value: Option<string>)
      ensures this.name == name && this.value == value
    {
      this.name := name;
      this.value := value;
    }

    /** The Name setter changes the name and nothing else. */
    method SetName(name: string)
      modifies this`name
      ensures this.name == name && value == old(value)
    {
      this.name := name;
    }

    /** The Value setter changes the value and nothing else. */
    method SetValue(value: Option<string>)
      modifies this`value
      ensures this.value == value && name == old(name)
    {
      this.value := value;
    }
  }
}
