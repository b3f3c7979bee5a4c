/**
 * How a property's `java.sql.JDBCType` is resolved: the static table
 * `jdbcTypeMapping` first, then the ordered fallback rules of
 * `jdbcTypeConvert`, the first non-null answer winning, `OTHER` by default.
 * Both are filled once by the static initialiser and are constants here.
 */
module JdbcTypes {
  import opened JavaModel
  import opened AnnotationWalker

  /** The `java.sql.JDBCType` constants the parser can produce. */
  datatype JdbcType = VARCHAR | TINYINT | INTEGER | CHAR | BIGINT | DECIMAL | BIT | BLOB | TIMESTAMP | CLOB | OTHER

  /** The static table: a declared Java class to its JDBC type. */
  const JdbcTypeMapping: map<JavaType, JdbcType> := map[
    StringClass := VARCHAR,
    ByteClass := TINYINT, BytePrimitive := TINYINT,
    ShortClass := INTEGER, ShortPrimitive := INTEGER,
    IntegerClass := INTEGER, IntPrimitive := INTEGER,
    CharacterClass := CHAR, CharPrimitive := CHAR,
    LongClass := BIGINT, LongPrimitive := BIGINT,
    DoubleClass := DECIMAL, DoublePrimitive := DECIMAL,
    FloatClass := DECIMAL, FloatPrimitive := DECIMAL,
    BooleanClass := BIT, BooleanPrimitive := BIT,
    ArrayOf(BytePrimitive) := BLOB,
    BigDecimalClass := DECIMAL, BigIntegerClass := INTEGER,
    UtilDate := TIMESTAMP, SqlDate := TIMESTAMP, SqlTimestamp := TIMESTAMP,
    ObjectClass := VARCHAR
  ]

  /** `Map.getOrDefault` on the static table. */
  function TableLookupOr(t: JavaType, default: JdbcType): JdbcType {
    if t in JdbcTypeMapping then JdbcTypeMapping[t] else default
  }

  /** The fallback rules, one constructor per lambda of the static initialiser. */
  datatype Rule = EnumeratedRule | LobRule | EnumDictRule

  /** `jdbcTypeConvert`, in registration order. */
  const JdbcTypeConvert: seq<Rule> := [EnumeratedRule, LobRule, EnumDictRule]

  /** The kind of the class a type names; classes outside the universe count as plain classes. */
  function KindOf(u: Universe, t: JavaType): ClassKind {
    if t.Named? && t.name in u then u[t.name].kind else PlainClass
  }

  /**
   * The third rule: an `EnumDict` enum, or an array of one, gets BIGINT for
   * the array and, for a single value, the table's answer for the class of
   * the first constant's value (VARCHAR if the table has none); any other
   * type gets null.
   */
  function EnumDictJdbcType(u: Universe, t: JavaType): (r: Option<JdbcType>)
    ensures r.None? <==> !KindOf(u, if t.ArrayOf? then t.component else t).EnumDictEnum?
  {
    var isArray := t.ArrayOf?;
    var element := if isArray then t.component else t;
    match KindOf(u, element)
    case EnumDictEnum(valueClass) =>
      if isArray then Some(BIGINT) else Some(TableLookupOr(valueClass, VARCHAR))
    case _ => None
  }

  /** One rule applied to a property of `cls`; None stands for the lambda's null. */
  function ApplyRule(rule: Rule, u: Universe, cls: ClassDesc, p: Property): Option<JdbcType> {
    match rule
    case EnumeratedRule => if GetAnnotation(cls, p, EnumeratedKind).Some? then Some(VARCHAR) else None
    case LobRule => if GetAnnotation(cls, p, LobKind).Some? then Some(CLOB) else None
    case EnumDictRule => EnumDictJdbcType(u, p.propertyType)
  }

  /**
   * What each rule answers: @Enumerated gives VARCHAR and @Lob gives CLOB
   * exactly when present; the third rule gives BIGINT for an array of an
   * EnumDict enum and the table's type (default VARCHAR) of the first
   * constant's value class for a single one.
   */
  lemma ApplyRuleAnswers(rule: Rule, u: Universe, cls: ClassDesc, p: Property)
    ensures rule.EnumeratedRule? ==>
              ApplyRule(rule, u, cls, p) == (if GetAnnotation(cls, p, EnumeratedKind).Some? then Some(VARCHAR) else None)
    ensures rule.LobRule? ==>
              ApplyRule(rule, u, cls, p) == (if GetAnnotation(cls, p, LobKind).Some? then Some(CLOB) else None)
    ensures rule.EnumDictRule? && p.propertyType.ArrayOf? && KindOf(u, p.propertyType.component).EnumDictEnum? ==>
              ApplyRule(rule, u, cls, p) == Some(BIGINT)
    ensures rule.EnumDictRule? && !p.propertyType.ArrayOf? && KindOf(u, p.propertyType).EnumDictEnum? ==>
              ApplyRule(rule, u, cls, p) == Some(TableLookupOr(KindOf(u, p.propertyType).firstValueClass, VARCHAR))
    ensures rule.EnumDictRule? && !KindOf(u, if p.propertyType.ArrayOf? then p.propertyType.component else p.propertyType).EnumDictEnum? ==>
              ApplyRule(rule, u, cls, p).None?
  {
  }

  /** `stream().map(apply).filter(nonNull).findFirst()`: the first rule with an answer. */
  function FirstNonNull(rules: seq<Rule>, u: Universe, cls: ClassDesc, p: Property): (r: Option<JdbcType>)
    ensures r.None? <==> forall i :: 0 <= i < |rules| ==> ApplyRule(rules[i], u, cls, p).None?
    ensures r.Some? ==> exists i :: 0 <= i < |rules| && ApplyRule(rules[i], u, cls, p) == r
                                    && forall j :: 0 <= j < i ==> ApplyRule(rules[j], u, cls, p).None?
  {
    if rules == [] then None
    else
      var first := ApplyRule(rules[0], u, cls, p);
      if first.Some? then
        first
      else
        var r := FirstNonNull(rules[1..], u, cls, p);
        assert forall i :: 1 <= i < |rules| ==> rules[i] == rules[1..][i - 1];
        if r.Some? then
          var i :| 0 <= i < |rules| - 1 && ApplyRule(rules[1..][i], u, cls, p) == r
                   && forall j :: 0 <= j < i ==> ApplyRule(rules[1..][j], u, cls, p).None?;
          assert ApplyRule(rules[i + 1], u, cls, p) == r;
          r
        else
          r
  }

  /** The JDBC type of property `p` of `cls`: the table, else the rule chain, else OTHER. */
  function ResolveJdbcType(u: Universe, cls: ClassDesc, p: Property): (r: JdbcType)
    ensures p.propertyType in JdbcTypeMapping ==> r == JdbcTypeMapping[p.propertyType]
    ensures p.propertyType !in JdbcTypeMapping ==>
              (r == OTHER <==> forall i :: 0 <= i < |JdbcTypeConvert| ==> ApplyRule(JdbcTypeConvert[i], u, cls, p).None?)
  {
    if p.propertyType in JdbcTypeMapping then JdbcTypeMapping[p.propertyType]
    else FirstNonNull(JdbcTypeConvert, u, cls, p).GetOr(OTHER)
  }

  // ---------------------------------------------------------------------
  // The table, against the value categories it stands for.
  // ---------------------------------------------------------------------

  /** The categories of values the table distinguishes. */
  datatype ValueCategory =
    | Text | Int8 | Int16 | Int32 | Int64 | Character16 | Float32 | Float64
    | Boolean | ByteSequence | ArbitraryDecimal | ArbitraryInteger | DateTime | AnyObject

  /** The category of a Java class, boxed and primitive alike; None for every other class. */
  function CategoryOf(t: JavaType): Option<ValueCategory> {
    match t
    case StringClass => Some(Text)
    case ByteClass | BytePrimitive => Some(Int8)
    case ShortClass | ShortPrimitive => Some(Int16)
    case IntegerClass | IntPrimitive => Some(Int32)
    case CharacterClass | CharPrimitive => Some(Character16)
    case LongClass | LongPrimitive => Some(Int64)
    case DoubleClass | DoublePrimitive => Some(Float64)
    case FloatClass | FloatPrimitive => Some(Float32)
    case BooleanClass | BooleanPrimitive => Some(Boolean)
    case ArrayOf(c) => if c == BytePrimitive then Some(ByteSequence) else None
    case BigDecimalClass => Some(ArbitraryDecimal)
    case BigIntegerClass => Some(ArbitraryInteger)
    case UtilDate | SqlDate | SqlTimestamp => Some(DateTime)
    case ObjectClass => Some(AnyObject)
    case Named(_) => None
  }

  /** The storage type each category is given. */
  function CategoryJdbcType(c: ValueCategory): JdbcType {
    match c
    case Text => VARCHAR
    case Int8 => TINYINT
    case Int16 | Int32 | ArbitraryInteger => INTEGER
    case Int64 => BIGINT
    case Character16 => CHAR
    case Float32 | Float64 | ArbitraryDecimal => DECIMAL
    case Boolean => BIT
    case ByteSequence => BLOB
    case DateTime => TIMESTAMP
    case AnyObject => VARCHAR
  }

  /** The box class of a primitive type; every other type is its own. */
  function Boxed(t: JavaType): JavaType {
    match t
    case BytePrimitive => ByteClass
    case ShortPrimitive => ShortClass
    case IntPrimitive => IntegerClass
    case CharPrimitive => CharacterClass
    case LongPrimitive => LongClass
    case DoublePrimitive => DoubleClass
    case FloatPrimitive => FloatClass
    case BooleanPrimitive => BooleanClass
    case _ => t
  }

  /** The integral classes are in the table, with their category's type. */
  lemma IntegralClassesAreInTable(t: JavaType)
    requires t.ByteClass? || t.BytePrimitive? || t.ShortClass? || t.ShortPrimitive? || t.IntegerClass? || t.IntPrimitive? || t.LongClass? || t.LongPrimitive?
    ensures t in JdbcTypeMapping && CategoryOf(t).Some? && JdbcTypeMapping[t] == CategoryJdbcType(CategoryOf(t).value)
  {
  }

  /** The character, boolean and text classes are in the table, with their category's type. */
  lemma TextualClassesAreInTable(t: JavaType)
    requires t.StringClass? || t.CharacterClass? || t.CharPrimitive? || t.BooleanClass? || t.BooleanPrimitive? || t.ObjectClass?
    ensures t in JdbcTypeMapping && CategoryOf(t).Some? && JdbcTypeMapping[t] == CategoryJdbcType(CategoryOf(t).value)
  {
  }

  /** The floating-point and arbitrary-precision classes are in the table, with their category's type. */
  lemma DecimalClassesAreInTable(t: JavaType)
    requires t.DoubleClass? || t.DoublePrimitive? || t.FloatClass? || t.FloatPrimitive? || t.BigDecimalClass? || t.BigIntegerClass?
    ensures t in JdbcTypeMapping && CategoryOf(t).Some? && JdbcTypeMapping[t] == CategoryJdbcType(CategoryOf(t).value)
  {
  }

  /** The date and time classes and byte[] are in the table, with their category's type. */
  lemma TemporalAndBinaryClassesAreInTable(t: JavaType)
    requires t.UtilDate? || t.SqlDate? || t.SqlTimestamp? || t == ArrayOf(BytePrimitive)
    ensures t in JdbcTypeMapping && CategoryOf(t).Some? && JdbcTypeMapping[t] == CategoryJdbcType(CategoryOf(t).value)
  {
  }

  /** Every class with a value category is in the table, with its category's type. */
  lemma CategorisedClassesAreInTable(t: JavaType)
    requires CategoryOf(t).Some?
    ensures t in JdbcTypeMapping && JdbcTypeMapping[t] == CategoryJdbcType(CategoryOf(t).value)
  {
    match t
    case ByteClass | BytePrimitive | ShortClass | ShortPrimitive | IntegerClass | IntPrimitive | LongClass | LongPrimitive =>
      IntegralClassesAreInTable(t);
    case StringClass | CharacterClass | CharPrimitive | BooleanClass | BooleanPrimitive | ObjectClass =>
      TextualClassesAreInTable(t);
    case DoubleClass | DoublePrimitive | FloatClass | FloatPrimitive | BigDecimalClass | BigIntegerClass =>
      DecimalClassesAreInTable(t);
    case UtilDate | SqlDate | SqlTimestamp | ArrayOf(_) =>
      TemporalAndBinaryClassesAreInTable(t);
  }

  /** A class without a value category is not in the table. */
  lemma UncategorisedClassesAreNotInTable(t: JavaType)
    requires CategoryOf(t).None?
    ensures t !in JdbcTypeMapping
  {
  }

  /**
   * The table holds exactly the classes that have a value category, and
   * maps each of them to its category's type.
   */
  lemma TableFollowsCategories(t: JavaType)
    ensures t in JdbcTypeMapping <==> CategoryOf(t).Some?
    ensures t in JdbcTypeMapping ==> JdbcTypeMapping[t] == CategoryJdbcType(CategoryOf(t).value)
  {
    if CategoryOf(t).Some? {
      CategorisedClassesAreInTable(t);
    } else {
      UncategorisedClassesAreNotInTable(t);
    }
  }

  /** A primitive class and its box are both in the table, with the same type. */
  lemma BoxedAndPrimitiveAgree(t: JavaType)
    ensures t in JdbcTypeMapping <==> Boxed(t) in JdbcTypeMapping
    ensures t in JdbcTypeMapping ==> JdbcTypeMapping[Boxed(t)] == JdbcTypeMapping[t]
  {
    TableFollowsCategories(t);
    TableFollowsCategories(Boxed(t));
    assert CategoryOf(Boxed(t)) == CategoryOf(t);
  }

  /** The table never answers CLOB or OTHER: those come only from the rule chain. */
  lemma TableNeverClobOrOther(t: JavaType)
    requires t in JdbcTypeMapping
    ensures JdbcTypeMapping[t] != CLOB && JdbcTypeMapping[t] != OTHER
  {
    TableFollowsCategories(t);
  }

  // ---------------------------------------------------------------------
  // The resolution order.
  // ---------------------------------------------------------------------

  /**
   * Resolution as a cascade: a class in the table gets the table's type
   * and no rule runs; otherwise @Enumerated gives VARCHAR, else @Lob gives
   * CLOB, else the EnumDict rule's answer, else OTHER.
   */
  lemma {:induction false} ResolveJdbcTypeCascade(u: Universe, cls: ClassDesc, p: Property)
    ensures ResolveJdbcType(u, cls, p)
            == if p.propertyType in JdbcTypeMapping then JdbcTypeMapping[p.propertyType]
               else if GetAnnotation(cls, p, EnumeratedKind).Some? then VARCHAR
               else if GetAnnotation(cls, p, LobKind).Some? then CLOB
               else EnumDictJdbcType(u, p.propertyType).GetOr(OTHER)
  {
    var rules := JdbcTypeConvert;
    assert rules[0] == EnumeratedRule && rules[1..] == [LobRule, EnumDictRule];
    assert rules[1..][0] == LobRule && rules[1..][1..] == [EnumDictRule];
    assert rules[1..][1..][0] == EnumDictRule && rules[1..][1..][1..] == [];
    var last := FirstNonNull(rules[1..][1..], u, cls, p);
    assert last == EnumDictJdbcType(u, p.propertyType);
  }

  /** OTHER is the answer exactly when the table and all three rules have none. */
  lemma ResolvesToOtherIff(u: Universe, cls: ClassDesc, p: Property)
    ensures ResolveJdbcType(u, cls, p) == OTHER
            <==> p.propertyType !in JdbcTypeMapping
                 && GetAnnotation(cls, p, EnumeratedKind).None?
                 && GetAnnotation(cls, p, LobKind).None?
                 && EnumDictJdbcType(u, p.propertyType).None?
  {
    ResolveJdbcTypeCascade(u, cls, p);
    var t := p.propertyType;
    if t in JdbcTypeMapping {
      TableNeverClobOrOther(t);
    }
    var element := if t.ArrayOf? then t.component else t;
    if KindOf(u, element).EnumDictEnum? && KindOf(u, element).firstValueClass in JdbcTypeMapping {
      TableNeverClobOrOther(KindOf(u, element).firstValueClass);
    }
  }

  /** CLOB is the answer exactly when the table misses, @Enumerated is absent and @Lob is present. */
  lemma ResolvesToClobIff(u: Universe, cls: ClassDesc, p: Property)
    ensures ResolveJdbcType(u, cls, p) == CLOB
            <==> p.propertyType !in JdbcTypeMapping
                 && GetAnnotation(cls, p, EnumeratedKind).None?
                 && GetAnnotation(cls, p, LobKind).Some?
  {
    ResolveJdbcTypeCascade(u, cls, p);
    var t := p.propertyType;
    if t in JdbcTypeMapping {
      TableNeverClobOrOther(t);
    }
    var element := if t.ArrayOf? then t.component else t;
    if KindOf(u, element).EnumDictEnum? && KindOf(u, element).firstValueClass in JdbcTypeMapping {
      TableNeverClobOrOther(KindOf(u, element).firstValueClass);
    }
  }

  /**
   * An array of an EnumDict enum gets BIGINT without its first constant's
   * value class being looked at: any other value class gives the same.
   */
  lemma EnumDictArrayIgnoresValueClass(u: Universe, n: string, other: JavaType)
    requires n in u && u[n].kind.EnumDictEnum?
    ensures EnumDictJdbcType(u, ArrayOf(Named(n))) == Some(BIGINT)
    ensures EnumDictJdbcType(u[n := u[n].(kind := EnumDictEnum(other))], ArrayOf(Named(n)))
            == EnumDictJdbcType(u, ArrayOf(Named(n)))
  {
  }

  /**
   * A property typed by an EnumDict enum whose first value is a `Long`, and
   * carrying neither @Enumerated nor @Lob, resolves to BIGINT through the
   * table's entry for `Long`; an array of it resolves to BIGINT directly.
   */
  lemma LongBackedEnumDictIsBigint(u: Universe, cls: ClassDesc, p: Property, n: string)
    requires n in u && u[n].kind == EnumDictEnum(LongClass)
    requires p.propertyType == Named(n) || p.propertyType == ArrayOf(Named(n))
    requires GetAnnotation(cls, p, EnumeratedKind).None? && GetAnnotation(cls, p, LobKind).None?
    ensures ResolveJdbcType(u, cls, p) == BIGINT
  {
    ResolveJdbcTypeCascade(u, cls, p);
  }

  /**
   * A property typed by an EnumDict enum, carrying neither @Enumerated nor
   * @Lob, gets the table's type for the class of the first constant's value,
   * and VARCHAR when the table has no entry for that class.
   */
  lemma EnumDictScalarUsesValueClass(u: Universe, cls: ClassDesc, p: Property, n: string, v: JavaType)
    requires n in u && u[n].kind == EnumDictEnum(v) && p.propertyType == Named(n)
    requires GetAnnotation(cls, p, EnumeratedKind).None? && GetAnnotation(cls, p, LobKind).None?
    ensures ResolveJdbcType(u, cls, p) == TableLookupOr(v, VARCHAR)
    ensures v !in JdbcTypeMapping ==> ResolveJdbcType(u, cls, p) == VARCHAR
  {
    ResolveJdbcTypeCascade(u, cls, p);
  }

  /** @Enumerated wins over @Lob when the table has no entry for the declared class. */
  lemma EnumeratedBeforeLob(u: Universe, cls: ClassDesc, p: Property)
    requires p.propertyType !in JdbcTypeMapping
    requires GetAnnotation(cls, p, EnumeratedKind).Some?
    ensures ResolveJdbcType(u, cls, p) == VARCHAR
  {
    ResolveJdbcTypeCascade(u, cls, p);
  }
}
