/**
 * Worked examples: small entity classes and the metadata they yield.
 */
module ParserExamples {
  import opened JavaModel
  import opened AnnotationWalker
  import opened JdbcTypes
  import opened JpaAnnotationParser

  /** `@Column` with every member at its JPA default. */
  const PlainColumn: Annotation := Column("", 255, 0, true, true, "")

  /** A property with a getter and a setter, neither annotated. */
  function BeanProperty(name: string, t: JavaType): Property {
    Property(name, t, Some([]), Some([]))
  }

  /** `@Table(name = "t_person") class Person { @Column int age; }` */
  const Person: ClassDesc := ClassDesc(
    "Person", JavaLangObject,
    map["age" := [PlainColumn]],
    [BeanProperty("age", IntPrimitive)],
    [Table("t_person")],
    PlainClass)

  /** Person's one column: named and aliased `age`, INTEGER, nullable. */
  lemma PersonHasOneIntegerColumn()
    ensures Parsable(map[], Person, 0)
    ensures ColumnsOf(map[], None, None, Person, 0)
            == [ColumnMeta("age", "age", 255, 0, IntPrimitive, INTEGER, false, map[], None)]
  {
    var age := BeanProperty("age", IntPrimitive);
    assert Person.properties[0] == age;
    assert GetAnnotation(Person, age, ColumnKind) == Some(PlainColumn);
    assert !ContainsText("");
    var column := ColumnFor(map[], None, None, Person, age, PlainColumn);
    assert column == ColumnMeta("age", "age", 255, 0, IntPrimitive, INTEGER, false, map[], None);
    assert Contribution(map[], None, None, Person, age, 0) == [column];
    assert ColumnsUpTo(map[], None, None, Person, 1, 0)
           == ColumnsUpTo(map[], None, None, Person, 0, 0) + [column];
  }

  /** `class Address { @Column String street; }` */
  const Address: ClassDesc := ClassDesc(
    "Address", JavaLangObject,
    map["street" := [PlainColumn]],
    [BeanProperty("street", StringClass)],
    [],
    PlainClass)

  /** `@Table(name = "t_customer") class Customer { @CollectionTable(name = "addr_tbl") Address address; }` */
  const Customer: ClassDesc := ClassDesc(
    "Customer", JavaLangObject,
    map["address" := [CollectionTable("addr_tbl")]],
    [BeanProperty("address", Named("Address"))],
    [Table("t_customer")],
    PlainClass)

  const Classes: Universe := map["Address" := Address]

  /** Address's `street` column, under the prefixes `address` and `addr_tbl`. */
  lemma StreetColumnUnderPrefixes()
    ensures ColumnFor(Classes, Some("address"), Some("addr_tbl"), Address, BeanProperty("street", StringClass), PlainColumn)
            == ColumnMeta("addr_tbl.street", "address.street", 255, 0, StringClass, VARCHAR, false, map[], None)
  {
    assert !ContainsText("");
    assert ContainsText("address") && ContainsText("addr_tbl");
    var column := ColumnFor(Classes, Some("address"), Some("addr_tbl"), Address, BeanProperty("street", StringClass), PlainColumn);
    assert column.name == "addr_tbl" + "." + "street";
    assert column.alias == "address" + "." + "street";
  }

  /** Address parsed under the prefixes `address` and `addr_tbl`. */
  lemma AddressUnderPrefixes()
    ensures Parsable(Classes, Address, 0)
    ensures ColumnsOf(Classes, Some("address"), Some("addr_tbl"), Address, 0)
            == [ColumnMeta("addr_tbl.street", "address.street", 255, 0, StringClass, VARCHAR, false, map[], None)]
  {
    var street := BeanProperty("street", StringClass);
    assert Address.properties[0] == street;
    assert GetAnnotation(Address, street, ColumnKind) == Some(PlainColumn);
    StreetColumnUnderPrefixes();
    ContributionCases(Classes, Some("address"), Some("addr_tbl"), Address, street, 0);
    ColumnsUpToStep(Classes, Some("address"), Some("addr_tbl"), Address, 0, 0);
  }

  /** Customer's one property nests Address, which is itself parsable. */
  lemma CustomerIsParsable()
    ensures Nests(Customer, BeanProperty("address", Named("Address")))
    ensures Parsable(Classes, Customer, 1)
  {
    var address := BeanProperty("address", Named("Address"));
    assert Customer.properties[0] == address;
    assert GetAnnotation(Customer, address, ColumnKind).None?;
    assert GetAnnotation(Customer, address, CollectionTableKind) == Some(CollectionTable("addr_tbl"));
    AddressUnderPrefixes();
  }

  /** The nested `street` column is named `addr_tbl.street` and aliased `address.street`. */
  lemma CollectionTableFlattensUnderBothPrefixes()
    ensures Parsable(Classes, Customer, 1)
    ensures ColumnsOf(Classes, None, None, Customer, 1)
            == [ColumnMeta("addr_tbl.street", "address.street", 255, 0, StringClass, VARCHAR, false, map[], None)]
  {
    var address := BeanProperty("address", Named("Address"));
    CustomerIsParsable();
    AddressUnderPrefixes();
    assert Customer.properties[0] == address;
    assert GetAnnotation(Customer, address, CollectionTableKind) == Some(CollectionTable("addr_tbl"));
    ContributionCases(Classes, None, None, Customer, address, 1);
    ColumnsUpToStep(Classes, None, None, Customer, 0, 1);
  }

  /** `class Base { @Lob String notes; }`, `class Middle extends Base {}`, `class Leaf extends Middle {}` */
  const Base: ClassDesc := ClassDesc("Base", JavaLangObject, map["notes" := [Lob]], [], [], PlainClass)
  const Middle: ClassDesc := ClassDesc("Middle", Extends(Base), map[], [], [], PlainClass)
  const Leaf: ClassDesc := ClassDesc("Leaf", Extends(Middle), map[], [], [], PlainClass)

  /** A field one or two levels up is found; one nowhere on the chain is found on its getter. */
  lemma InheritedAndAccessorAnnotationsAreFound()
    ensures GetAnnotation(Middle, BeanProperty("notes", StringClass), LobKind) == Some(Lob)
    ensures GetAnnotation(Leaf, BeanProperty("notes", StringClass), LobKind) == Some(Lob)
    ensures GetAnnotation(Leaf, Property("summary", StringClass, Some([Lob]), None), LobKind) == Some(Lob)
  {
    var notes := BeanProperty("notes", StringClass);
    FieldOnAncestorIsUsed(Middle, notes, LobKind, 1);
    assert Ancestor(Leaf, 1) == Some(Middle);
    FieldOnAncestorIsUsed(Leaf, notes, LobKind, 2);
  }

  /** `class Shadowing extends Base { String notes; }`: the nearer, unannotated field hides Base's @Lob. */
  const Shadowing: ClassDesc := ClassDesc("Shadowing", Extends(Base), map["notes" := []], [], [], PlainClass)

  lemma ShadowingFieldHidesInheritedAnnotation()
    ensures GetAnnotation(Shadowing, BeanProperty("notes", StringClass), LobKind).None?
  {
  }
}
