/**
 * Java reflection, as plain data.
 *
 * The parser reads an entity class through reflection: its declared fields,
 * its superclass, its bean property descriptors (with their read and write
 * accessors) and the JPA annotations found on each of these.  Here every such
 * class is a value: a `ClassDesc` whose superclass chain is an inductive
 * datatype ending at `java.lang.Object`, whose annotated elements ("sites")
 * are the sequences of annotations present on them, and whose property
 * descriptors are given in the order bean introspection returns them.
 */
module JavaModel {

  datatype Option<+T> = None | Some(value: T) {
    /** The value, or `default` where Java would have a null. */
    function GetOr(default: T): T {
      match this
      case Some(v) => v
      case None => default
    }
  }

  /**
   * The declared type of a bean property.  The classes the parser knows by
   * name have a constructor each; `ArrayOf` is an array class and `Named`
   * is any other class, described (when it matters) in a `Universe`.
   */
  datatype JavaType =
    | StringClass
    | ByteClass | BytePrimitive
    | ShortClass | ShortPrimitive
    | IntegerClass | IntPrimitive
    | CharacterClass | CharPrimitive
    | LongClass | LongPrimitive
    | DoubleClass | DoublePrimitive
    | FloatClass | FloatPrimitive
    | BooleanClass | BooleanPrimitive
    | BigDecimalClass | BigIntegerClass
    | UtilDate | SqlDate | SqlTimestamp
    | ObjectClass
    | ArrayOf(component: JavaType)
    | Named(name: string)

  /** The annotation types the parser asks for (`Column.class`, ...). */
  datatype AnnotationKind = ColumnKind | CollectionTableKind | EnumeratedKind | LobKind | TableKind

  /** The `javax.persistence` annotations, with the members the parser reads. */
  datatype Annotation =
    | Column(name: string, length: int, precision: int, nullable: bool, updatable: bool, columnDefinition: string)
    | CollectionTable(name: string)
    | Enumerated
    | Lob
    | Table(name: string)
  {
    function Kind(): AnnotationKind {
      match this
      case Column(_, _, _, _, _, _) => ColumnKind
      case CollectionTable(_) => CollectionTableKind
      case Enumerated => EnumeratedKind
      case Lob => LobKind
      case Table(_) => TableKind
    }
  }

  /** An annotated element (a field, a getter, a setter, a class): the annotations on it. */
  type Site = seq<Annotation>

  /**
   * A bean property descriptor: its name, its declared type and, when the
   * property has them, the annotations on its read and write accessors.
   */
  datatype Property = Property(name: string, propertyType: JavaType, readMethod: Option<Site>, writeMethod: Option<Site>)

  /** The superclass of a described class; `JavaLangObject` is the root. */
  datatype Superclass = JavaLangObject | Extends(desc: ClassDesc)

  /**
   * Whether a class is an enum, and whether it is an enum implementing
   * `EnumDict`; for the latter, the class of `getValue()` of its first
   * constant.
   */
  datatype ClassKind = PlainClass | PlainEnum | EnumDictEnum(firstValueClass: JavaType)

  /**
   * A class as reflection shows it: its declared fields with their
   * annotations, its bean properties in introspection order, and the
   * class-level annotations that Spring's hierarchical search finds for it.
   */
  datatype ClassDesc = ClassDesc(
    name: string,
    superclass: Superclass,
    declaredFields: map<string, Site>,
    properties: seq<Property>,
    classAnnotations: Site,
    kind: ClassKind)

  /** The classes a `Named` type can stand for, by name. */
  type Universe = map<string, ClassDesc>

  /**
   * The first annotation of the given kind present on a site, or None: the
   * result of asking one annotated element for one annotation type.
   */
  function FindOnSite(site: Site, kind: AnnotationKind): (r: Option<Annotation>)
    ensures r.Some? ==> r.value in site && r.value.Kind() == kind
    ensures r.None? <==> forall a | a in site :: a.Kind() != kind
    ensures r.Some? ==> exists i :: 0 <= i < |site| && site[i] == r.value
                                    && forall j :: 0 <= j < i ==> site[j].Kind() != kind
  {
    if site == [] then None
    else if site[0].Kind() == kind then Some(site[0])
    else
      var r := FindOnSite(site[1..], kind);
      if r.Some? then
        var i :| 0 <= i < |site| - 1 && site[1..][i] == r.value
                 && forall j :: 0 <= j < i ==> site[1..][j].Kind() != kind;
        assert forall j :: 1 <= j < i + 1 ==> site[j] == site[1..][j - 1];
        assert site[i + 1] == r.value;
        r
      else r
  }

  /** `Character.isWhitespace` (as of Java 9: U+180E is no longer a space). */
  predicate IsWhitespace(c: char) {
    var n := c as int;
    || 0x09 <= n <= 0x0D
    || 0x1C <= n <= 0x20
    || n == 0x1680
    || 0x2000 <= n <= 0x2006
    || 0x2008 <= n <= 0x200A
    || n == 0x2028 || n == 0x2029 || n == 0x205F || n == 0x3000
  }

  /** Spring's `StringUtils.hasText` on a non-null string: some character is not whitespace. */
  function ContainsText(s: string): (b: bool)
    ensures b <==> exists i :: 0 <= i < |s| && !IsWhitespace(s[i])
  {
    if s == [] then false
    else if !IsWhitespace(s[0]) then true
    else
      var b := ContainsText(s[1..]);
      assert forall i :: 1 <= i < |s| ==> s[i] == s[1..][i - 1];
      b
  }

  /** Spring's `StringUtils.hasText` on a possibly null string. */
  predicate HasText(s: Option<string>) {
    s.Some? && ContainsText(s.value)
  }
}
