/** A named, typed, text-valued property. The source's `Property` is a
    reference type with three public mutable fields, so it is a class here. */
module Properties {

  /** The property kinds a store knows about. */
  datatype PropertyType = Bool | Number | String | Error

  /** The value of a property's three fields at one moment. */
  datatype PropertyData = PropertyData(kind: PropertyType, name: string, value: string)

  class Property {
    var kind: PropertyType
    var value: string
    var name: string

    /** The three-argument constructor: stores exactly the given fields. */
    constructor (kind: PropertyType, name: string, value: string)
      ensures this.kind == kind && this.name == name && this.value == value
    {
      this.kind := kind;
      this.name := name;
      this.value := value;
    }

    /** The two-argument constructor: the value starts out empty. */
    constructor Named(kind: PropertyType, name: string)
      ensures this.kind == kind && this.name == name && this.value == ""
    {
      this.kind := kind;
      this.name := name;
      this.value := "";
    }

    /** The current value of the three fields. */
    function Data(): PropertyData
      reads this
    {
      PropertyData(kind, name, value)
    }

    /** A new object with the same three fields. Because the clone is a
        fresh object, later assignments to either one leave the other
        untouched; the receiver itself is not modified (no modifies clause). */
    method CloneProperty() returns (c: Property)
      ensures fresh(c)
      ensures c.Data() == Data()
    {
      c := new Property(kind, name, value);
    }
  }

  /** The field values of a list of properties, in list order. */
  function DataOf(ps: seq<Property>): (ds: seq<PropertyData>)
    reads ps
  {
    seq(|ps|, i reads ps requires 0 <= i < |ps| => ps[i].Data())
  }

  /** A clone can be changed freely without touching its original. */
  method CloneThenChange(p: Property, kind: PropertyType, value: string) returns (c: Property)
    ensures fresh(c)
    ensures c.Data() == PropertyData(kind, p.name, value)
    ensures p.Data() == old(p.Data())
  {
    c := p.CloneProperty();
    c.kind := kind;
    c.value := value;
  }
}
