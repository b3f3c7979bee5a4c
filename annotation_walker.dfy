/**
 * `JpaAnnotationParser.getAnnotation`: where the annotation of a bean
 * property is looked for.
 *
 * The field named like the property is looked up on the class; while the
 * class does not declare it, the lookup moves to the superclass, until the
 * superclass is `Object`.  Whatever the field gives, a missing annotation is
 * then looked for on the read accessor and, failing that, on the write
 * accessor.
 */
module AnnotationWalker {
  import opened JavaModel

  /** The read-then-write accessor fallback applied to what the field gave. */
  function AccessorFallback(found: Option<Annotation>, p: Property, kind: AnnotationKind): (r: Option<Annotation>)
    ensures found.Some? ==> r == found
    ensures r.Some? && found.None? ==>
              (p.readMethod.Some? && r.value in p.readMethod.value) || (p.writeMethod.Some? && r.value in p.writeMethod.value)
    ensures (found.None? || found.value.Kind() == kind) && r.Some? ==> r.value.Kind() == kind
  {
    var fromRead := if found.None? && p.readMethod.Some? then FindOnSite(p.readMethod.value, kind) else found;
    if fromRead.None? && p.writeMethod.Some? then FindOnSite(p.writeMethod.value, kind) else fromRead
  }

  /** The annotation of the given kind for property `p` of class `cls`, or None. */
  function GetAnnotation(cls: ClassDesc, p: Property, kind: AnnotationKind): (r: Option<Annotation>)
    ensures r.Some? ==> r.value.Kind() == kind
    decreases cls
  {
    if p.name in cls.declaredFields then
      AccessorFallback(FindOnSite(cls.declaredFields[p.name], kind), p, kind)
    else if cls.superclass.Extends? then
      GetAnnotation(cls.superclass.desc, p, kind)
    else
      AccessorFallback(None, p, kind)
  }

  // ---------------------------------------------------------------------
  // A reference definition: an ordered list of lookup sites.
  // ---------------------------------------------------------------------

  /** The class `k` steps up the superclass chain of `cls` (0 is `cls`), if there is one. */
  ghost function Ancestor(cls: ClassDesc, k: nat): Option<ClassDesc>
    decreases k
  {
    if k == 0 then Some(cls)
    else match cls.superclass
      case JavaLangObject => None
      case Extends(s) => Ancestor(s, k - 1)
  }

  /** The nearest class of the chain, starting at `cls`, that declares a field `f`. */
  ghost function DeclaringClass(cls: ClassDesc, f: string): (r: Option<ClassDesc>)
    ensures r.Some? ==> f in r.value.declaredFields
    ensures r.Some? ==> exists k: nat :: Ancestor(cls, k) == r
    decreases cls
  {
    if f in cls.declaredFields then
      assert Ancestor(cls, 0) == Some(cls);
      Some(cls)
    else match cls.superclass
      case JavaLangObject => None
      case Extends(s) =>
        var r := DeclaringClass(s, f);
        if r.Some? then
          var k: nat :| Ancestor(s, k) == r;
          assert Ancestor(cls, k + 1) == r;
          r
        else r
  }

  ghost function AccessorSites(p: Property): seq<Site> {
    (if p.readMethod.Some? then [p.readMethod.value] else [])
    + (if p.writeMethod.Some? then [p.writeMethod.value] else [])
  }

  /**
   * The sites searched, in order: the field on the nearest declaring class
   * (only that one: a field it shadows is never consulted), then the read
   * accessor, then the write accessor.
   */
  ghost function LookupSites(cls: ClassDesc, p: Property): seq<Site> {
    match DeclaringClass(cls, p.name)
    case Some(d) => [d.declaredFields[p.name]] + AccessorSites(p)
    case None => AccessorSites(p)
  }

  /** The first site carrying an annotation of the given kind decides. */
  ghost function FirstOnSites(sites: seq<Site>, kind: AnnotationKind): Option<Annotation> {
    if sites == [] then None
    else if FindOnSite(sites[0], kind).Some? then FindOnSite(sites[0], kind)
    else FirstOnSites(sites[1..], kind)
  }

  lemma FirstOnSitesCons(site: Site, rest: seq<Site>, kind: AnnotationKind)
    ensures FirstOnSites([site] + rest, kind)
            == if FindOnSite(site, kind).Some? then FindOnSite(site, kind) else FirstOnSites(rest, kind)
  {
    assert ([site] + rest)[0] == site && ([site] + rest)[1..] == rest;
  }

  lemma AccessorFallbackSearchesSites(found: Option<Annotation>, p: Property, kind: AnnotationKind)
    ensures AccessorFallback(found, p, kind)
            == if found.Some? then found else FirstOnSites(AccessorSites(p), kind)
  {
    var writeSites := if p.writeMethod.Some? then [p.writeMethod.value] else [];
    if p.writeMethod.Some? {
      FirstOnSitesCons(p.writeMethod.value, [], kind);
    }
    if p.readMethod.Some? {
      FirstOnSitesCons(p.readMethod.value, writeSites, kind);
    }
  }

  /** `getAnnotation` searches exactly the sites of `LookupSites`, in their order. */
  lemma {:induction false} GetAnnotationSearchesSites(cls: ClassDesc, p: Property, kind: AnnotationKind)
    ensures GetAnnotation(cls, p, kind) == FirstOnSites(LookupSites(cls, p), kind)
    decreases cls
  {
    if p.name in cls.declaredFields {
      var field := cls.declaredFields[p.name];
      var sites := [field] + AccessorSites(p);
      assert sites[0] == field && sites[1..] == AccessorSites(p);
      AccessorFallbackSearchesSites(FindOnSite(field, kind), p, kind);
    } else if cls.superclass.Extends? {
      GetAnnotationSearchesSites(cls.superclass.desc, p, kind);
    } else {
      AccessorFallbackSearchesSites(None, p, kind);
    }
  }

  /**
   * A field declared `k` levels up, and by no nearer class, is the one whose
   * annotation is used (then the accessors, if it has none).
   */
  lemma {:induction false} FieldOnAncestorIsUsed(cls: ClassDesc, p: Property, kind: AnnotationKind, k: nat)
    requires Ancestor(cls, k).Some? && p.name in Ancestor(cls, k).value.declaredFields
    requires forall j :: 0 <= j < k && Ancestor(cls, j).Some? ==> p.name !in Ancestor(cls, j).value.declaredFields
    ensures GetAnnotation(cls, p, kind)
            == AccessorFallback(FindOnSite(Ancestor(cls, k).value.declaredFields[p.name], kind), p, kind)
    decreases k
  {
    if k > 0 {
      assert Ancestor(cls, 0) == Some(cls);
      var s := cls.superclass.desc;
      forall j | 0 <= j < k - 1 && Ancestor(s, j).Some?
        ensures p.name !in Ancestor(s, j).value.declaredFields
      {
        assert Ancestor(cls, j + 1) == Ancestor(s, j);
      }
      FieldOnAncestorIsUsed(s, p, kind, k - 1);
    }
  }

  /** A field declared nowhere on the chain: only the accessors are searched. */
  lemma {:induction false} UndeclaredFieldUsesAccessors(cls: ClassDesc, p: Property, kind: AnnotationKind)
    requires forall k: nat :: Ancestor(cls, k).Some? ==> p.name !in Ancestor(cls, k).value.declaredFields
    ensures GetAnnotation(cls, p, kind) == AccessorFallback(None, p, kind)
    decreases cls
  {
    assert Ancestor(cls, 0) == Some(cls);
    if cls.superclass.Extends? {
      var s := cls.superclass.desc;
      forall k: nat | Ancestor(s, k).Some?
        ensures p.name !in Ancestor(s, k).value.declaredFields
      {
        assert Ancestor(cls, k + 1) == Ancestor(s, k);
      }
      UndeclaredFieldUsesAccessors(s, p, kind);
    }
  }
}
