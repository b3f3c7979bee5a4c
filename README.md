# JPA annotation parser, modelled in Dafny

This project models `JpaAnnotationParser` from hsweb-commons' MyBatis DAO
module. The parser turns a JPA-annotated (`javax.persistence`) entity class
into ezorm table metadata. The result is a table name plus an ordered list of
columns, and each column carries a resolved `java.sql.JDBCType`.

The model has four modules:

- `JavaModel` (`java_model.dfy`) describes Java reflection as plain data:
  - a class is a `ClassDesc` with its declared fields, its bean properties in introspection order, its class-level annotations, whether it is an (`EnumDict`) enum, and its superclass chain down to `java.lang.Object`;
  - an annotated element (field, getter, setter, class) is a `Site`, the sequence of annotations on it;
  - `StringUtils.hasText` becomes `ContainsText` / `HasText`, with `Character.isWhitespace` spelled out.
- `AnnotationWalker` (`annotation_walker.dfy`) models `getAnnotation` as a recursive function:
  - it looks at the field on the nearest class that declares it, then the read accessor, then the write accessor;
  - it is proved equal to a first-match search over an explicit list of lookup sites.
- `JdbcTypes` (`jdbc_types.dfy`) models the static `jdbcTypeMapping` table and the `jdbcTypeConvert` rule chain as constants, and the resolution as table first, then rules, then `OTHER`.
  - It proves the table's shape: exactly the classes with a value category, and a primitive agrees with its box.
  - It proves the cascade order of the rules, and when each of CLOB and OTHER is produced.
- `JpaAnnotationParser` (`jpa_annotation_parser.dfy`) holds:
  - the ezorm metadata, modelled as `ColumnMeta` / `TableMeta` values;
  - a specification of the columns an entity yields (`ColumnsUpTo`, a left fold over the properties);
  - `parseColumnMeta` and `parseMetaDataFromEntity` as imperative methods with loops, proved against that specification;
  - lemmas on the columns: well-formedness, the prefix rules, and that nesting replaces the outer prefixes.

`ParserExamples` (`parser_examples.dfy`) works through small entity classes and
the metadata they yield.

A `@CollectionTable` property recurses into its declared class. Without a bound, a cyclic nesting would make that recursion run forever. The model bounds the nesting with a ghost `depth` and the predicate `Parsable`. `ColumnsUpToDepthIrrelevant` proves that any bound that suffices gives the same columns.

## Model

Every source cell below is in the one file
`hsweb-commons/hsweb-commons-dao/hsweb-commons-dao-mybatis/src/main/java/org/hswebframework/web/dao/mybatis/builder/jpa/JpaAnnotationParser.java`.

| member | source | states |
|---|---|---|
| `JavaModel.FindOnSite` | hsweb-commons/hsweb-commons-dao/hsweb-commons-dao-mybatis/src/main/java/org/hswebframework/web/dao/mybatis/builder/jpa/JpaAnnotationParser.java:178 | The annotation found on an element has the requested type and is the first such annotation on it. None is returned exactly when no annotation of that type is present. |
| `JavaModel.ContainsText` | hsweb-commons/hsweb-commons-dao/hsweb-commons-dao-mybatis/src/main/java/org/hswebframework/web/dao/mybatis/builder/jpa/JpaAnnotationParser.java:128 | `hasText` holds exactly when some character is not Java whitespace. |
| `AnnotationWalker.AccessorFallback` | hsweb-commons/hsweb-commons-dao/hsweb-commons-dao-mybatis/src/main/java/org/hswebframework/web/dao/mybatis/builder/jpa/JpaAnnotationParser.java:184-191 | An annotation already found is kept. Otherwise the result comes from the read accessor or the write accessor, and has the requested type. |
| `AnnotationWalker.GetAnnotation` | hsweb-commons/hsweb-commons-dao/hsweb-commons-dao-mybatis/src/main/java/org/hswebframework/web/dao/mybatis/builder/jpa/JpaAnnotationParser.java:174-193 | Whatever `getAnnotation` returns is an annotation of the requested type. |
| `AnnotationWalker.GetAnnotationSearchesSites` | hsweb-commons/hsweb-commons-dao/hsweb-commons-dao-mybatis/src/main/java/org/hswebframework/web/dao/mybatis/builder/jpa/JpaAnnotationParser.java:174-193 | `getAnnotation` is the first match over these sites, in order: the field on the nearest class of the chain that declares it, then the read accessor, then the write accessor. A field that a nearer class shadows is never consulted. |
| `AnnotationWalker.FieldOnAncestorIsUsed` | hsweb-commons/hsweb-commons-dao/hsweb-commons-dao-mybatis/src/main/java/org/hswebframework/web/dao/mybatis/builder/jpa/JpaAnnotationParser.java:176-183 | Suppose the field is declared `k` superclasses up and by no nearer class. Then the result is that field's annotation, and only if it has none are the accessors tried. |
| `AnnotationWalker.UndeclaredFieldUsesAccessors` | hsweb-commons/hsweb-commons-dao/hsweb-commons-dao-mybatis/src/main/java/org/hswebframework/web/dao/mybatis/builder/jpa/JpaAnnotationParser.java:179-191 | A field declared nowhere on the chain up to `Object` leaves only the read accessor and then the write accessor. |
| `JdbcTypes.FirstNonNull` | hsweb-commons/hsweb-commons-dao/hsweb-commons-dao-mybatis/src/main/java/org/hswebframework/web/dao/mybatis/builder/jpa/JpaAnnotationParser.java:150-153 | The stream's find-first gives None exactly when every rule answers null. Otherwise it gives the answer of some rule such that all earlier rules answered null. |
| `JdbcTypes.EnumDictJdbcType` | hsweb-commons/hsweb-commons-dao/hsweb-commons-dao-mybatis/src/main/java/org/hswebframework/web/dao/mybatis/builder/jpa/JpaAnnotationParser.java:91-104 | The third rule answers null exactly when the property type, or its component type for an array, is not an EnumDict enum. |
| `JdbcTypes.ApplyRuleAnswers` | hsweb-commons/hsweb-commons-dao/hsweb-commons-dao-mybatis/src/main/java/org/hswebframework/web/dao/mybatis/builder/jpa/JpaAnnotationParser.java:82-104 | @Enumerated gives VARCHAR and @Lob gives CLOB exactly when present, else null. An array of an EnumDict enum gives BIGINT. A single EnumDict enum gives the table's type for its first constant's value class, or VARCHAR. Any other type gives null. |
| `JdbcTypes.ResolveJdbcType` | hsweb-commons/hsweb-commons-dao/hsweb-commons-dao-mybatis/src/main/java/org/hswebframework/web/dao/mybatis/builder/jpa/JpaAnnotationParser.java:146-155 | A class in the table gets its entry. Otherwise the type is OTHER exactly when every rule answers null. |
| `JdbcTypes.EnumDictScalarUsesValueClass` | hsweb-commons/hsweb-commons-dao/hsweb-commons-dao-mybatis/src/main/java/org/hswebframework/web/dao/mybatis/builder/jpa/JpaAnnotationParser.java:97-102 | A property typed by an EnumDict enum, with neither @Enumerated nor @Lob, gets the table's type for its first constant's value class, and VARCHAR when the table has no entry for that class. |
| `JdbcTypes.TableFollowsCategories` | hsweb-commons/hsweb-commons-dao/hsweb-commons-dao-mybatis/src/main/java/org/hswebframework/web/dao/mybatis/builder/jpa/JpaAnnotationParser.java:45-80 | A class is in the table exactly when it has a value category, and its entry is that category's JDBC type. Examples: String and Object give VARCHAR, byte and Byte give TINYINT, short, int and BigInteger give INTEGER, byte[] gives BLOB. |
| `JdbcTypes.CategorisedClassesAreInTable` | hsweb-commons/hsweb-commons-dao/hsweb-commons-dao-mybatis/src/main/java/org/hswebframework/web/dao/mybatis/builder/jpa/JpaAnnotationParser.java:45-80 | Every class with a value category has a table entry equal to its category's JDBC type. |
| `JdbcTypes.UncategorisedClassesAreNotInTable` | hsweb-commons/hsweb-commons-dao/hsweb-commons-dao-mybatis/src/main/java/org/hswebframework/web/dao/mybatis/builder/jpa/JpaAnnotationParser.java:40-80 | No other class, including every other array, enum or user class, is in the table. |
| `JdbcTypes.BoxedAndPrimitiveAgree` | hsweb-commons/hsweb-commons-dao/hsweb-commons-dao-mybatis/src/main/java/org/hswebframework/web/dao/mybatis/builder/jpa/JpaAnnotationParser.java:47-69 | A primitive class is in the table exactly when its box is, and both have the same JDBC type. |
| `JdbcTypes.TableNeverClobOrOther` | hsweb-commons/hsweb-commons-dao/hsweb-commons-dao-mybatis/src/main/java/org/hswebframework/web/dao/mybatis/builder/jpa/JpaAnnotationParser.java:45-80 | No table entry is CLOB or OTHER. |
| `JdbcTypes.ResolveJdbcTypeCascade` | hsweb-commons/hsweb-commons-dao/hsweb-commons-dao-mybatis/src/main/java/org/hswebframework/web/dao/mybatis/builder/jpa/JpaAnnotationParser.java:148-155 | A class in the table gets its entry, whatever its annotations. Otherwise @Enumerated gives VARCHAR; else @Lob gives CLOB; else the EnumDict rule's answer; else OTHER. |
| `JdbcTypes.ResolvesToOtherIff` | hsweb-commons/hsweb-commons-dao/hsweb-commons-dao-mybatis/src/main/java/org/hswebframework/web/dao/mybatis/builder/jpa/JpaAnnotationParser.java:148-155 | The type is OTHER exactly when the table misses and all three rules answer null. |
| `JdbcTypes.ResolvesToClobIff` | hsweb-commons/hsweb-commons-dao/hsweb-commons-dao-mybatis/src/main/java/org/hswebframework/web/dao/mybatis/builder/jpa/JpaAnnotationParser.java:82-89 | The type is CLOB exactly when the table misses, @Enumerated is absent and @Lob is present. |
| `JdbcTypes.EnumeratedBeforeLob` | hsweb-commons/hsweb-commons-dao/hsweb-commons-dao-mybatis/src/main/java/org/hswebframework/web/dao/mybatis/builder/jpa/JpaAnnotationParser.java:82-85 | When the table misses, @Enumerated gives VARCHAR even when @Lob is present too. |
| `JdbcTypes.EnumDictArrayIgnoresValueClass` | hsweb-commons/hsweb-commons-dao/hsweb-commons-dao-mybatis/src/main/java/org/hswebframework/web/dao/mybatis/builder/jpa/JpaAnnotationParser.java:93-100 | An array of an EnumDict enum gets BIGINT. Replacing the class of its first constant's value changes nothing. |
| `JdbcTypes.LongBackedEnumDictIsBigint` | hsweb-commons/hsweb-commons-dao/hsweb-commons-dao-mybatis/src/main/java/org/hswebframework/web/dao/mybatis/builder/jpa/JpaAnnotationParser.java:97-102 | An EnumDict enum whose first value is a `Long`, with neither @Enumerated nor @Lob, resolves to BIGINT, both as a scalar and as an array. |
| `JpaAnnotationParser.ContributionCases` | hsweb-commons/hsweb-commons-dao/hsweb-commons-dao-mybatis/src/main/java/org/hswebframework/web/dao/mybatis/builder/jpa/JpaAnnotationParser.java:117-126 | A property with @Column contributes exactly one column. @CollectionTable without @Column contributes exactly the columns of the declared type, parsed under the property name and the table name. A property with neither contributes nothing. |
| `JpaAnnotationParser.ColumnForFields` | hsweb-commons/hsweb-commons-dao/hsweb-commons-dao-mybatis/src/main/java/org/hswebframework/web/dao/mybatis/builder/jpa/JpaAnnotationParser.java:128-145 | The alias is the property name, behind `prefix + "."` when the prefix has text. The name is @Column's name if it has text, else the property name, behind `columnName + "."` when that has text. Length, precision and Java type are copied. `notNull` is set exactly when `nullable=false`, and "read-only" is recorded exactly when `updatable=false`. A column definition is kept exactly when it has text. |
| `JpaAnnotationParser.NewColumn` | hsweb-commons/hsweb-commons-dao/hsweb-commons-dao-mybatis/src/main/java/org/hswebframework/web/dao/mybatis/builder/jpa/JpaAnnotationParser.java:128-156 | The column built through the setters, with the JDBC type looked up in the table before the rule chain, is the specified column for that property. |
| `JpaAnnotationParser.ParseColumnMeta` | hsweb-commons/hsweb-commons-dao/hsweb-commons-dao-mybatis/src/main/java/org/hswebframework/web/dao/mybatis/builder/jpa/JpaAnnotationParser.java:109-160 | The list that the descriptor loop builds with `add`/`addAll` is the concatenation, in descriptor order, of each property's contribution. |
| `JpaAnnotationParser.ParseMetaDataFromEntity` | hsweb-commons/hsweb-commons-dao/hsweb-commons-dao-mybatis/src/main/java/org/hswebframework/web/dao/mybatis/builder/jpa/JpaAnnotationParser.java:162-171 | The result is null exactly when the class has no @Table. Otherwise it is a table with @Table's name, holding the class's columns parsed with null prefixes, in order. |
| `JpaAnnotationParser.ColumnsUpToDepthIrrelevant` | hsweb-commons/hsweb-commons-dao/hsweb-commons-dao-mybatis/src/main/java/org/hswebframework/web/dao/mybatis/builder/jpa/JpaAnnotationParser.java:122 | The nesting bound only serves the termination proof: any two bounds that let the recursion finish give the same columns. |
| `JpaAnnotationParser.ColumnsUpToWellFormed` | hsweb-commons/hsweb-commons-dao/hsweb-commons-dao-mybatis/src/main/java/org/hswebframework/web/dao/mybatis/builder/jpa/JpaAnnotationParser.java:109-160 | At every depth of nesting, each column has a non-empty name and alias. Its property bag holds at most "read-only" mapped to true, and a column definition appears only when it has text. |
| `JpaAnnotationParser.DottedKeepsHeadAndTail` | hsweb-commons/hsweb-commons-dao/hsweb-commons-dao-mybatis/src/main/java/org/hswebframework/web/dao/mybatis/builder/jpa/JpaAnnotationParser.java:129-132 | A dotted name starts with `head + "."` when the head has text, and always ends with the name it qualifies. |
| `JpaAnnotationParser.EmittedColumnCarriesPrefixes` | hsweb-commons/hsweb-commons-dao/hsweb-commons-dao-mybatis/src/main/java/org/hswebframework/web/dao/mybatis/builder/jpa/JpaAnnotationParser.java:128-133 | The column emitted for a @Column property is aliased under `prefix + "."` and named under `columnName + "."`, whenever these have text, whatever the class's other properties do. |
| `JpaAnnotationParser.FlatColumnsCarryPrefixes` | hsweb-commons/hsweb-commons-dao/hsweb-commons-dao-mybatis/src/main/java/org/hswebframework/web/dao/mybatis/builder/jpa/JpaAnnotationParser.java:128-133 | Without nesting, every alias starts with `prefix + "."` and every name with `columnName + "."`, whenever these have text. |
| `JpaAnnotationParser.NestedColumnsIgnoreOuterPrefixes` | hsweb-commons/hsweb-commons-dao/hsweb-commons-dao-mybatis/src/main/java/org/hswebframework/web/dao/mybatis/builder/jpa/JpaAnnotationParser.java:120-124 | What a nesting property contributes does not depend on the outer prefixes: they are replaced, not extended. |
| `ParserExamples.PersonHasOneIntegerColumn` | hsweb-commons/hsweb-commons-dao/hsweb-commons-dao-mybatis/src/main/java/org/hswebframework/web/dao/mybatis/builder/jpa/JpaAnnotationParser.java:128-157 | `@Column int age` yields one column named and aliased `age`, of type INTEGER, nullable, with no flags. |
| `ParserExamples.StreetColumnUnderPrefixes` | hsweb-commons/hsweb-commons-dao/hsweb-commons-dao-mybatis/src/main/java/org/hswebframework/web/dao/mybatis/builder/jpa/JpaAnnotationParser.java:128-133 | Under the prefixes `address` and `addr_tbl`, `@Column String street` becomes `addr_tbl.street`, aliased `address.street`, of type VARCHAR. |
| `ParserExamples.CollectionTableFlattensUnderBothPrefixes` | hsweb-commons/hsweb-commons-dao/hsweb-commons-dao-mybatis/src/main/java/org/hswebframework/web/dao/mybatis/builder/jpa/JpaAnnotationParser.java:120-124 | `@CollectionTable(name="addr_tbl") Address address` is replaced by Address's columns, named and aliased under `addr_tbl` and `address`. |
| `ParserExamples.InheritedAndAccessorAnnotationsAreFound` | hsweb-commons/hsweb-commons-dao/hsweb-commons-dao-mybatis/src/main/java/org/hswebframework/web/dao/mybatis/builder/jpa/JpaAnnotationParser.java:176-190 | A field annotated one or two superclasses up is found. An annotation on the getter alone is found too. |
| `ParserExamples.ShadowingFieldHidesInheritedAnnotation` | hsweb-commons/hsweb-commons-dao/hsweb-commons-dao-mybatis/src/main/java/org/hswebframework/web/dao/mybatis/builder/jpa/JpaAnnotationParser.java:176-181 | An unannotated field on the subclass stops the walk, so the superclass's annotation on a field of the same name is not used. |

## Left out

- Bean introspection (`BeanUtilsBean` property descriptors) is not modelled. A class's properties, with their declared types, accessor annotations and order, are given as data.
- `JavaModel.FindOnSite`: Spring's `AnnotationUtils.findAnnotation` also searches meta-annotations and, on methods, overridden methods of superclasses and interfaces. The model takes each site's annotations as already resolved.
- The class-level `@Table` search is taken as given: `ClassDesc.classAnnotations` is what Spring's hierarchical class search finds.
- Reflection mechanics are replaced by data. `getDeclaredField` and the `NoSuchFieldException` that drives the upward walk become a lookup in `declaredFields`.
- Crash edges are outside the model:
  - A class whose superclass is null (an interface) would throw a `NullPointerException` in the walk. `Superclass` has no such value, so every chain ends at `java.lang.Object`.
  - An EnumDict enum with no constants, or whose first constant has a null value, would throw in the third rule. `ClassKind.EnumDictEnum` always carries a value class.
  - Cyclic `@CollectionTable` nesting recurses without bound in the source. The model requires `Parsable`, so nesting has a finite depth.
- `@CollectionTable` on a property whose declared type is not a described class (`Named` in the universe) is excluded by `Parsable`. In Java, most JDK classes yield no columns there, and `Object` or an interface with a bean property throws.
- `JdbcTypes.KindOf`: a `Named` class missing from the universe counts as a plain, non-enum class.
- `JavaModel.IsWhitespace` follows `Character.isWhitespace` as of Java 9, so U+180E is not whitespace.
- The ezorm metadata classes `RDBColumnMetaData` and `RDBTableMetaData` are modelled as values:
  - only the fields the parser sets are kept, and the property bag holds only the key "read-only";
  - the columns of a table form a sequence in insertion order, and ezorm's own keyed storage of columns is not modelled.
- The static initialiser's filling of the table and rule list, thread safety and logging are left out. The table and the chain are constants here.
- The imports the parser does not use (`ValueConverter` and its converters, `ConcurrentHashMap`, `Function`, `TypeUtils`, `ClassUtils`) play no part.
