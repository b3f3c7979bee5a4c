/**
 * `JpaAnnotationParser.parseColumnMeta` and `parseMetaDataFromEntity`: an
 * entity class to table metadata.
 *
 * Every bean property with a @Column becomes one column; a property with a
 * @CollectionTable and no @Column is replaced by the columns of its declared
 * type, parsed under the property's name (aliases) and the collection
 * table's name (column names); any other property is skipped.  The ezorm
 * metadata objects the source fills through setters are values here.
 */
module JpaAnnotationParser {
  import opened JavaModel
  import opened AnnotationWalker
  import opened JdbcTypes

  /** The one key of the column property bag the parser writes. */
  const ReadOnlyKey: string := "read-only"

  /** `RDBColumnMetaData`, restricted to what the parser sets. */
  datatype ColumnMeta = ColumnMeta(
    name: string,
    alias: string,
    length: int,
    precision: int,
    javaType: JavaType,
    jdbcType: JdbcType,
    notNull: bool,
    properties: map<string, bool>,
    columnDefinition: Option<string>)

  /** `RDBTableMetaData`: a name and the columns added to it, in order. */
  datatype TableMeta = TableMeta(name: string, columns: seq<ColumnMeta>)

  // ---------------------------------------------------------------------
  // The specification of parseColumnMeta.
  // ---------------------------------------------------------------------

  /** `head + "." + tail` when `head` has text, else `tail`. */
  function Dotted(head: Option<string>, tail: string): string {
    if HasText(head) then head.value + "." + tail else tail
  }

  /** A dotted name starts with `head + "."` when `head` has text, and always ends with `tail`. */
  lemma DottedKeepsHeadAndTail(head: Option<string>, tail: string)
    ensures var r := Dotted(head, tail);
            && (HasText(head) ==> |head.value| + 1 <= |r| && r[..|head.value| + 1] == head.value + ".")
            && |tail| <= |r| && r[|r| - |tail|..] == tail
  {
    if HasText(head) {
      var r := (head.value + ".") + tail;
      assert r[..|head.value| + 1] == head.value + ".";
      assert r[|r| - |tail|..] == tail;
    }
  }

  /** A column named under `columnName + "."` and aliased under `prefix + "."`, whichever of them has text. */
  ghost predicate CarriesPrefixes(c: ColumnMeta, prefix: Option<string>, columnName: Option<string>) {
    && (HasText(prefix) ==> |prefix.value| + 1 <= |c.alias| && c.alias[..|prefix.value| + 1] == prefix.value + ".")
    && (HasText(columnName) ==> |columnName.value| + 1 <= |c.name| && c.name[..|columnName.value| + 1] == columnName.value + ".")
  }

  /** A property that is replaced by the columns of its declared type. */
  ghost predicate Nests(cls: ClassDesc, p: Property) {
    GetAnnotation(cls, p, ColumnKind).None? && GetAnnotation(cls, p, CollectionTableKind).Some?
  }

  /**
   * Parsing `cls` terminates without an exception when every nesting
   * property's declared type is a described class, itself parsable, within
   * `depth` levels of nesting.
   */
  ghost predicate Parsable(u: Universe, cls: ClassDesc, depth: nat)
    decreases depth
  {
    forall p | p in cls.properties && Nests(cls, p) ::
      && p.propertyType.Named?
      && p.propertyType.name in u
      && depth > 0
      && Parsable(u, u[p.propertyType.name], depth - 1)
  }

  /** The column emitted for property `p` of `cls`, annotated with @Column `col`. */
  ghost function ColumnFor(u: Universe, prefix: Option<string>, columnName: Option<string>,
                           cls: ClassDesc, p: Property, col: Annotation): ColumnMeta
    requires col.Column?
  {
    var realName := if ContainsText(col.name) then col.name else p.name;
    ColumnMeta(
      name := Dotted(columnName, realName),
      alias := Dotted(prefix, p.name),
      length := col.length,
      precision := col.precision,
      javaType := p.propertyType,
      jdbcType := ResolveJdbcType(u, cls, p),
      notNull := !col.nullable,
      properties := if col.updatable then map[] else map[ReadOnlyKey := true],
      columnDefinition := if ContainsText(col.columnDefinition) then Some(col.columnDefinition) else None)
  }

  /** What one property contributes: one column, the nested type's columns, or nothing. */
  ghost function Contribution(u: Universe, prefix: Option<string>, columnName: Option<string>,
                              cls: ClassDesc, p: Property, depth: nat): seq<ColumnMeta>
    requires Parsable(u, cls, depth) && p in cls.properties
    decreases depth, 0
  {
    match GetAnnotation(cls, p, ColumnKind)
    case Some(col) => [ColumnFor(u, prefix, columnName, cls, p, col)]
    case None =>
      match GetAnnotation(cls, p, CollectionTableKind)
      case Some(table) =>
        var nested := u[p.propertyType.name];
        ColumnsUpTo(u, Some(p.name), Some(table.name), nested, |nested.properties|, depth - 1)
      case None => []
  }

  /** The columns contributed by the first `n` properties of `cls`, in property order. */
  ghost function ColumnsUpTo(u: Universe, prefix: Option<string>, columnName: Option<string>,
                             cls: ClassDesc, n: nat, depth: nat): seq<ColumnMeta>
    requires Parsable(u, cls, depth) && n <= |cls.properties|
    decreases depth, n + 1
  {
    if n == 0 then []
    else ColumnsUpTo(u, prefix, columnName, cls, n - 1, depth)
         + Contribution(u, prefix, columnName, cls, cls.properties[n - 1], depth)
  }

  /** The columns of `cls`. */
  ghost function ColumnsOf(u: Universe, prefix: Option<string>, columnName: Option<string>,
                           cls: ClassDesc, depth: nat): seq<ColumnMeta>
    requires Parsable(u, cls, depth)
  {
    ColumnsUpTo(u, prefix, columnName, cls, |cls.properties|, depth)
  }

  /** One more descriptor appends that property's contribution. */
  lemma ColumnsUpToStep(u: Universe, prefix: Option<string>, columnName: Option<string>,
                        cls: ClassDesc, i: nat, depth: nat)
    requires Parsable(u, cls, depth) && i < |cls.properties|
    ensures cls.properties[i] in cls.properties
    ensures ColumnsUpTo(u, prefix, columnName, cls, i + 1, depth)
            == ColumnsUpTo(u, prefix, columnName, cls, i, depth)
               + Contribution(u, prefix, columnName, cls, cls.properties[i], depth)
  {
  }

  /** The three cases of a property's contribution: emit, recurse, or skip. */
  lemma ContributionCases(u: Universe, prefix: Option<string>, columnName: Option<string>,
                          cls: ClassDesc, p: Property, depth: nat)
    requires Parsable(u, cls, depth) && p in cls.properties
    ensures GetAnnotation(cls, p, ColumnKind).Some? ==>
              && GetAnnotation(cls, p, ColumnKind).value.Column?
              && Contribution(u, prefix, columnName, cls, p, depth)
                 == [ColumnFor(u, prefix, columnName, cls, p, GetAnnotation(cls, p, ColumnKind).value)]
    ensures Nests(cls, p) ==>
              && p.propertyType.Named? && p.propertyType.name in u && depth > 0
              && Parsable(u, u[p.propertyType.name], depth - 1)
              && Contribution(u, prefix, columnName, cls, p, depth)
                 == ColumnsOf(u, Some(p.name), Some(GetAnnotation(cls, p, CollectionTableKind).value.name),
                              u[p.propertyType.name], depth - 1)
    ensures GetAnnotation(cls, p, ColumnKind).None? && !Nests(cls, p) ==>
              Contribution(u, prefix, columnName, cls, p, depth) == []
  {
  }

  // ---------------------------------------------------------------------
  // The parser.
  // ---------------------------------------------------------------------

  /**
   * The body of the descriptor loop for a property carrying @Column `col`:
   * a fresh column filled through its setters, the flags set only when the
   * annotation asks for them, and the JDBC type looked up in the table
   * before the rule chain is consulted.
   */
  method NewColumn(u: Universe, prefix: Option<string>, columnName: Option<string>,
                   entityClass: ClassDesc, descriptor: Property, col: Annotation)
    returns (column: ColumnMeta)
    requires col.Column?
    ensures column == ColumnFor(u, prefix, columnName, entityClass, descriptor, col)
  {
    var realName := if ContainsText(col.name) then col.name else descriptor.name;
    var realAlias := if HasText(prefix) then prefix.value + "." + descriptor.name else descriptor.name;
    var name := if HasText(columnName) then columnName.value + "." + realName else realName;
    var notNull := false;
    var properties: map<string, bool> := map[];
    var columnDefinition: Option<string> := None;
    if !col.updatable {
      properties := properties[ReadOnlyKey := true];
    }
    if !col.nullable {
      notNull := true;
    }
    if ContainsText(col.columnDefinition) {
      columnDefinition := Some(col.columnDefinition);
    }
    var propertyType := descriptor.propertyType;
    var jdbcType: JdbcType;
    if propertyType in JdbcTypeMapping {
      jdbcType := JdbcTypeMapping[propertyType];
    } else {
      jdbcType := FirstNonNull(JdbcTypeConvert, u, entityClass, descriptor).GetOr(OTHER);
    }
    column := ColumnMeta(name, realAlias, col.length, col.precision, propertyType,
                         jdbcType, notNull, properties, columnDefinition);
  }

  /**
   * `parseColumnMeta(prefix, columnName, entityClass)`: walks the property
   * descriptors, appending each property's columns to the result.
   * `depth` bounds the @CollectionTable nesting and plays no other part.
   */
  method ParseColumnMeta(u: Universe, prefix: Option<string>, columnName: Option<string>,
                         entityClass: ClassDesc, ghost depth: nat)
    returns (columnMetaDataList: seq<ColumnMeta>)
    requires Parsable(u, entityClass, depth)
    ensures columnMetaDataList == ColumnsOf(u, prefix, columnName, entityClass, depth)
    decreases depth
  {
    var descriptors := entityClass.properties;
    columnMetaDataList := [];
    for i := 0 to |descriptors|
      invariant columnMetaDataList == ColumnsUpTo(u, prefix, columnName, entityClass, i, depth)
    {
      var descriptor := descriptors[i];
      ColumnsUpToStep(u, prefix, columnName, entityClass, i, depth);
      ContributionCases(u, prefix, columnName, entityClass, descriptor, depth);
      var columnAnn := GetAnnotation(entityClass, descriptor, ColumnKind);
      var collectionTable := GetAnnotation(entityClass, descriptor, CollectionTableKind);
      if columnAnn.None? {
        if collectionTable.Some? {
          var nested := ParseColumnMeta(u, Some(descriptor.name), Some(collectionTable.value.name),
                                        u[descriptor.propertyType.name], depth - 1);
          columnMetaDataList := columnMetaDataList + nested;
        }
      } else {
        var column := NewColumn(u, prefix, columnName, entityClass, descriptor, columnAnn.value);
        columnMetaDataList := columnMetaDataList + [column];
      }
    }
  }

  /**
   * `parseMetaDataFromEntity(entityClass)`: None (Java's null) when the class
   * has no @Table; otherwise a table of that name holding the class's
   * columns, added one by one in order.
   */
  method ParseMetaDataFromEntity(u: Universe, entityClass: ClassDesc, ghost depth: nat)
    returns (tableMetaData: Option<TableMeta>)
    requires FindOnSite(entityClass.classAnnotations, TableKind).Some? ==> Parsable(u, entityClass, depth)
    ensures tableMetaData.None? <==> FindOnSite(entityClass.classAnnotations, TableKind).None?
    ensures tableMetaData.Some? ==>
              && tableMetaData.value.name == FindOnSite(entityClass.classAnnotations, TableKind).value.name
              && tableMetaData.value.columns == ColumnsOf(u, None, None, entityClass, depth)
  {
    var table := FindOnSite(entityClass.classAnnotations, TableKind);
    if table.None? {
      return None;
    }
    var meta := TableMeta(table.value.name, []);
    var columns := ParseColumnMeta(u, None, None, entityClass, depth);
    for i := 0 to |columns|
      invariant meta == TableMeta(table.value.name, columns[..i])
    {
      meta := meta.(columns := meta.columns + [columns[i]]);
    }
    assert columns[..|columns|] == columns;
    return Some(meta);
  }

  // ---------------------------------------------------------------------
  // Properties of the columns produced.
  // ---------------------------------------------------------------------

  /** The nesting bound is a proof device: any two bounds that suffice give the same columns. */
  lemma {:induction false} ColumnsUpToDepthIrrelevant(u: Universe, prefix: Option<string>, columnName: Option<string>,
                                                      cls: ClassDesc, n: nat, d1: nat, d2: nat)
    requires Parsable(u, cls, d1) && Parsable(u, cls, d2) && n <= |cls.properties|
    ensures ColumnsUpTo(u, prefix, columnName, cls, n, d1) == ColumnsUpTo(u, prefix, columnName, cls, n, d2)
    decreases d1, n + 1
  {
    if n > 0 {
      var m := n - 1;
      ColumnsUpToDepthIrrelevant(u, prefix, columnName, cls, m, d1, d2);
      ContributionDepthIrrelevant(u, prefix, columnName, cls, cls.properties[m], d1, d2);
      ColumnsUpToStep(u, prefix, columnName, cls, m, d1);
      ColumnsUpToStep(u, prefix, columnName, cls, m, d2);
      assert m + 1 == n;
    }
  }

  /** The same for the contribution of one property. */
  lemma {:induction false} ContributionDepthIrrelevant(u: Universe, prefix: Option<string>, columnName: Option<string>,
                                                       cls: ClassDesc, p: Property, d1: nat, d2: nat)
    requires Parsable(u, cls, d1) && Parsable(u, cls, d2) && p in cls.properties
    ensures Contribution(u, prefix, columnName, cls, p, d1) == Contribution(u, prefix, columnName, cls, p, d2)
    decreases d1, 0
  {
    ContributionCases(u, prefix, columnName, cls, p, d1);
    ContributionCases(u, prefix, columnName, cls, p, d2);
    if Nests(cls, p) {
      var nested := u[p.propertyType.name];
      var table := GetAnnotation(cls, p, CollectionTableKind).value;
      ColumnsUpToDepthIrrelevant(u, Some(p.name), Some(table.name), nested, |nested.properties|, d1 - 1, d2 - 1);
    }
  }

  /** Every property name, of `cls` and of every described class, is non-empty (as Java identifiers are). */
  ghost predicate NamedProperties(u: Universe, cls: ClassDesc) {
    && (forall p | p in cls.properties :: p.name != "")
    && (forall n, p | n in u && p in u[n].properties :: p.name != "")
  }

  /**
   * What a column takes from its property and its @Column: the name and the
   * alias by the dotted-prefix rule, length, precision and Java type as they
   * are, and each flag only when the annotation sets it.
   */
  lemma ColumnForFields(u: Universe, prefix: Option<string>, columnName: Option<string>,
                        cls: ClassDesc, p: Property, col: Annotation)
    requires col.Column?
    ensures var c := ColumnFor(u, prefix, columnName, cls, p, col);
            && (HasText(prefix) ==> c.alias == prefix.value + "." + p.name)
            && (!HasText(prefix) ==> c.alias == p.name)
            && (var realName := if ContainsText(col.name) then col.name else p.name;
                && (HasText(columnName) ==> c.name == columnName.value + "." + realName)
                && (!HasText(columnName) ==> c.name == realName))
            && c.length == col.length && c.precision == col.precision && c.javaType == p.propertyType
            && c.jdbcType == ResolveJdbcType(u, cls, p)
            && (c.notNull <==> !col.nullable)
            && (ReadOnlyKey in c.properties <==> !col.updatable)
            && (forall k | k in c.properties :: k == ReadOnlyKey && c.properties[k])
            && (c.columnDefinition.Some? <==> ContainsText(col.columnDefinition))
            && (c.columnDefinition.Some? ==> c.columnDefinition.value == col.columnDefinition)
  {
  }

  /**
   * What every column satisfies: non-empty name and alias, a property bag
   * holding at most `"read-only" -> true`, and a column definition only when
   * it has text.
   */
  ghost predicate WellFormedColumn(c: ColumnMeta) {
    && c.name != ""
    && c.alias != ""
    && (forall k | k in c.properties :: k == ReadOnlyKey && c.properties[k])
    && (c.columnDefinition.Some? ==> ContainsText(c.columnDefinition.value))
  }

  lemma ColumnForIsWellFormed(u: Universe, prefix: Option<string>, columnName: Option<string>,
                              cls: ClassDesc, p: Property, col: Annotation)
    requires col.Column? && p.name != ""
    ensures WellFormedColumn(ColumnFor(u, prefix, columnName, cls, p, col))
  {
    ColumnForFields(u, prefix, columnName, cls, p, col);
  }

  /** Every column the parser produces, at any depth of nesting, is well formed. */
  lemma {:induction false} ColumnsUpToWellFormed(u: Universe, prefix: Option<string>, columnName: Option<string>,
                                                 cls: ClassDesc, n: nat, depth: nat)
    requires Parsable(u, cls, depth) && n <= |cls.properties| && NamedProperties(u, cls)
    ensures forall c | c in ColumnsUpTo(u, prefix, columnName, cls, n, depth) :: WellFormedColumn(c)
    decreases depth, n
  {
    if n > 0 {
      ColumnsUpToWellFormed(u, prefix, columnName, cls, n - 1, depth);
      var p := cls.properties[n - 1];
      match GetAnnotation(cls, p, ColumnKind)
      case Some(col) =>
        ColumnForIsWellFormed(u, prefix, columnName, cls, p, col);
      case None =>
        if Nests(cls, p) {
          var nested := u[p.propertyType.name];
          var table := GetAnnotation(cls, p, CollectionTableKind).value;
          ColumnsUpToWellFormed(u, Some(p.name), Some(table.name), nested, |nested.properties|, depth - 1);
        }
    }
  }

  /**
   * A property carrying @Column emits a column named under the active
   * column-name prefix and aliased under the active property prefix (each
   * joined with "."), whatever the other properties of the class do.
   */
  lemma EmittedColumnCarriesPrefixes(u: Universe, prefix: Option<string>, columnName: Option<string>,
                                     cls: ClassDesc, p: Property, depth: nat)
    requires Parsable(u, cls, depth) && p in cls.properties && GetAnnotation(cls, p, ColumnKind).Some?
    ensures forall c | c in Contribution(u, prefix, columnName, cls, p, depth) :: CarriesPrefixes(c, prefix, columnName)
  {
    ContributionCases(u, prefix, columnName, cls, p, depth);
    var col := GetAnnotation(cls, p, ColumnKind).value;
    DottedKeepsHeadAndTail(prefix, p.name);
    DottedKeepsHeadAndTail(columnName, if ContainsText(col.name) then col.name else p.name);
  }

  /** Without nesting, every column of the class carries both active prefixes. A nesting property instead starts them afresh. */
  lemma {:induction false} FlatColumnsCarryPrefixes(u: Universe, prefix: Option<string>, columnName: Option<string>,
                                                    cls: ClassDesc, n: nat, depth: nat)
    requires Parsable(u, cls, depth) && n <= |cls.properties|
    requires forall p | p in cls.properties :: !Nests(cls, p)
    ensures forall c | c in ColumnsUpTo(u, prefix, columnName, cls, n, depth) :: CarriesPrefixes(c, prefix, columnName)
    decreases n
  {
    if n > 0 {
      var m := n - 1;
      FlatColumnsCarryPrefixes(u, prefix, columnName, cls, m, depth);
      ColumnsUpToStep(u, prefix, columnName, cls, m, depth);
      var p := cls.properties[m];
      ContributionCases(u, prefix, columnName, cls, p, depth);
      if GetAnnotation(cls, p, ColumnKind).Some? {
        EmittedColumnCarriesPrefixes(u, prefix, columnName, cls, p, depth);
      }
      assert m + 1 == n;
    }
  }

  /** The columns of a nesting property do not depend on the outer prefixes: they are replaced, not extended. */
  lemma NestedColumnsIgnoreOuterPrefixes(u: Universe, prefix1: Option<string>, columnName1: Option<string>,
                                         prefix2: Option<string>, columnName2: Option<string>,
                                         cls: ClassDesc, p: Property, depth: nat)
    requires Parsable(u, cls, depth) && p in cls.properties && Nests(cls, p)
    ensures Contribution(u, prefix1, columnName1, cls, p, depth) == Contribution(u, prefix2, columnName2, cls, p, depth)
  {
  }
}
