/**
 * The element classes of exchangelib/properties.py: their tags, the
 * length validators, the class-level FIELDS registry with its name cache,
 * MessageHeader, and the identity records ItemId, ParentItemId and
 * RootItemId with their XML encoding, decoding and equality.
 */
module Properties {
  import opened Common
  import opened Xml

  // ---------------------------------------------------------------- tags

  /** The EWSElement subclasses of the core, as a closed set. */
  datatype ElementClass =
    | MessageHeaderClass
    | ItemIdClass
    | ParentItemIdClass
    | RootItemIdClass
    | MailboxClass
    | AttendeeClass
    | RoomListClass
    | RoomClass

  /** The two namespaces an element class may declare: TNS and MNS. */
  datatype Namespace = Types | Messages

  function NamespaceUri(ns: Namespace): string
  {
    match ns
    case Types => TNS
    case Messages => MNS
  }

  /** ELEMENT_NAME of each class. */
  function ElementName(c: ElementClass): string
  {
    match c
    case MessageHeaderClass => "InternetMessageHeader"
    case ItemIdClass => "ItemId"
    case ParentItemIdClass => "ParentItemId"
    case RootItemIdClass => "RootItemId"
    case MailboxClass => "Mailbox"
    case AttendeeClass => "Attendee"
    case RoomListClass => "RoomList"
    case RoomClass => "Room"
  }

  /** NAMESPACE of each class: TNS unless the class overrides it with MNS. */
  function NamespaceOf(c: ElementClass): Namespace
  {
    match c
    case ParentItemIdClass | RootItemIdClass | RoomListClass => Messages
    case _ => Types
  }

  /** The prefix table request_tag looks the namespace up in. */
  const REQUEST_PREFIX: map<Namespace, string> := map[Types := "t:", Messages := "m:"]

  /** request_tag: the namespace's prefix followed by ELEMENT_NAME. */
  function RequestTag(c: ElementClass): (r: string)
    ensures |r| > 2
    ensures r[..2] == (if NamespaceOf(c) == Types then "t:" else "m:")
    ensures r[2..] == ElementName(c)
  {
    REQUEST_PREFIX[NamespaceOf(c)] + ElementName(c)
  }

  /** response_tag: `{NAMESPACE}ELEMENT_NAME`, except that RoomList answers as `{TNS}Address`. */
  function ResponseTag(c: ElementClass): string
  {
    if c == RoomListClass then Clark(TNS, "Address")
    else Clark(NamespaceUri(NamespaceOf(c)), ElementName(c))
  }

  /**
   * An element built with a class's request tag carries that class's
   * response tag, for every class but RoomList; for RoomList it never does.
   */
  lemma RequestTagExpandsToResponseTag(c: ElementClass)
    ensures c != RoomListClass <==> Expand(RequestTag(c)) == ResponseTag(c)
  {
    var r := RequestTag(c);
    assert r[..2] == (if NamespaceOf(c) == Types then "t:" else "m:");
    assert r == r[..2] + ElementName(c);
    if c == RoomListClass {
      assert Expand(r) == Clark(MNS, "RoomList");
      assert Expand(r)[|MNS| - 1] != ResponseTag(c)[|MNS| - 1];
    }
  }

  // ---------------------------------------------------------- validators

  /** The string helper classes with a length limit. */
  datatype BoundedText = Subject | Location

  /** MAXLENGTH of Subject and of Location. */
  function MaxLength(kind: BoundedText): nat
  {
    match kind
    case Subject => 255
    case Location => 255
  }

  /** Subject.clean and Location.clean. */
  function CleanBoundedText(kind: BoundedText, s: string): (r: Outcome)
    ensures r.Fail? <==> |s| > 255
    ensures r.Fail? ==> r.error == ValueError
  {
    if |s| > MaxLength(kind) then Fail(ValueError) else Pass
  }

  // -------------------------------------------------- the FIELDS registry

  /** A field descriptor: its name and whatever else identifies it. */
  datatype Field<D> = Field(name: string, descriptor: D)

  /** Python's clamping of a slice bound `idx` on a tuple of length n. */
  function SliceBound(idx: int, n: nat): (p: nat)
    ensures p <= n
    ensures 0 <= idx ==> p == if idx <= n then idx else n
    ensures idx < 0 ==> p == if -idx <= n then n + idx else 0
  {
    if idx < 0 then (if n + idx < 0 then 0 else n + idx)
    else if idx > n then n else idx
  }

  /** `FIELDS[0:idx] + (field,) + FIELDS[idx:]`. */
  function InsertAt<D>(fields: seq<Field<D>>, f: Field<D>, idx: int): (r: seq<Field<D>>)
  {
    var p := SliceBound(idx, |fields|);
    fields[..p] + [f] + fields[p..]
  }

  /** `tuple(g for g in FIELDS if g != f)`. */
  function Without<D(==)>(fields: seq<Field<D>>, f: Field<D>): (r: seq<Field<D>>)
  {
    if fields == [] then []
    else (if fields[0] == f then [] else [fields[0]]) + Without(fields[1..], f)
  }

  /** `{g.name: g for g in FIELDS}`: a later field overrides an earlier one of the same name. */
  function NameIndex<D>(fields: seq<Field<D>>): map<string, Field<D>>
  {
    if fields == [] then map[]
    else NameIndex(fields[..|fields| - 1])[fields[|fields| - 1].name := fields[|fields| - 1]]
  }

  /** The inserted field sits at the clamped index, with the old fields around it in order. */
  lemma InsertAtPlacesField<D>(fields: seq<Field<D>>, f: Field<D>, idx: int)
    ensures var r := InsertAt(fields, f, idx); var p := SliceBound(idx, |fields|);
      && |r| == |fields| + 1
      && r[p] == f
      && r[..p] == fields[..p]
      && r[p + 1..] == fields[p..]
  {
  }

  /** Removal drops every occurrence of f and nothing else. */
  lemma {:induction false} WithoutCounts<D>(fields: seq<Field<D>>, f: Field<D>)
    ensures multiset(Without(fields, f)) == multiset(fields)[f := 0]
  {
    if fields != [] {
      WithoutCounts(fields[1..], f);
      assert fields == [fields[0]] + fields[1..];
    }
  }

  /** Removal keeps the order of what remains: it distributes over concatenation. */
  lemma {:induction false} WithoutConcat<D>(a: seq<Field<D>>, b: seq<Field<D>>, f: Field<D>)
    ensures Without(a + b, f) == Without(a, f) + Without(b, f)
  {
    if a == [] {
      assert a + b == b;
    } else {
      assert (a + b)[0] == a[0] && (a + b)[1..] == a[1..] + b;
      WithoutConcat(a[1..], b, f);
    }
  }

  /** Removing a field undoes adding it, wherever it was added. */
  lemma WithoutUndoesInsert<D>(fields: seq<Field<D>>, f: Field<D>, idx: int)
    ensures Without(InsertAt(fields, f, idx), f) == Without(fields, f)
  {
    var p := SliceBound(idx, |fields|);
    WithoutConcat(fields[..p] + [f], fields[p..], f);
    WithoutConcat(fields[..p], [f], f);
    WithoutConcat(fields[..p], fields[p..], f);
    assert fields[..p] + fields[p..] == fields;
  }

  /** The cache maps a name to the LAST field with that name, and knows exactly the names in FIELDS. */
  lemma {:induction false} NameIndexLookup<D>(fields: seq<Field<D>>, name: string)
    ensures name in NameIndex(fields) <==> exists i :: 0 <= i < |fields| && fields[i].name == name
    ensures name in NameIndex(fields) ==> exists i ::
      && 0 <= i < |fields|
      && NameIndex(fields)[name] == fields[i]
      && fields[i].name == name
      && forall j :: i < j < |fields| ==> fields[j].name != name
  {
    if fields != [] {
      var init := fields[..|fields| - 1];
      NameIndexLookup(init, name);
      if fields[|fields| - 1].name != name && name in NameIndex(init) {
        var i :| 0 <= i < |init| && NameIndex(init)[name] == init[i] && init[i].name == name
          && forall j :: i < j < |init| ==> init[j].name != name;
        assert fields[i] == init[i];
      }
      if exists i :: 0 <= i < |fields| && fields[i].name == name {
        var i :| 0 <= i < |fields| && fields[i].name == name;
        if i < |fields| - 1 { assert init[i].name == name; }
      }
    }
  }

  /** Every field the cache returns is in FIELDS. */
  lemma NameIndexValuesInFields<D>(fields: seq<Field<D>>, name: string)
    requires name in NameIndex(fields)
    ensures NameIndex(fields)[name] in fields
  {
    NameIndexLookup(fields, name);
  }

  /** EWSElement itself or one of the core's subclasses of it. */
  datatype SchemaClass = EWSElementClass | Derived(cls: ElementClass)

  /** `cls.__mro__` without `object`: the class, then what it inherits from, EWSElement last. */
  function Mro(k: SchemaClass): (r: seq<SchemaClass>)
    ensures |r| > 0 && r[0] == k && r[|r| - 1] == EWSElementClass
    ensures k !in r[1..]
  {
    match k
    case EWSElementClass => [k]
    case Derived(c) =>
      match c
      case ParentItemIdClass | RootItemIdClass => [k, Derived(ItemIdClass), EWSElementClass]
      case RoomListClass | RoomClass => [k, Derived(MailboxClass), EWSElementClass]
      case _ => [k, EWSElementClass]
  }

  /** Class attribute lookup along an MRO: the value held by the first class whose own `__dict__` has it. */
  function Inherited<T>(own: map<SchemaClass, T>, mro: seq<SchemaClass>): Option<T>
  {
    if mro == [] then None
    else if mro[0] in own then Some(own[mro[0]])
    else Inherited(own, mro[1..])
  }

  /** Lookup along an MRO sees only the own dictionaries of the classes on it. */
  lemma {:induction false} InheritedAgrees<T>(own: map<SchemaClass, T>, own': map<SchemaClass, T>, mro: seq<SchemaClass>)
    requires forall j :: j in mro ==> (j in own <==> j in own') && (j in own ==> own[j] == own'[j])
    ensures Inherited(own, mro) == Inherited(own', mro)
  {
    if mro != [] {
      assert mro[0] in mro;
      InheritedAgrees(own, own', mro[1..]);
    }
  }

  /** Lookup returns the value of the first class on the MRO that holds one. */
  lemma {:induction false} InheritedAt<T>(own: map<SchemaClass, T>, mro: seq<SchemaClass>, i: nat)
    requires i < |mro| && mro[i] in own && forall j :: 0 <= j < i ==> mro[j] !in own
    ensures Inherited(own, mro) == Some(own[mro[i]])
  {
    if i > 0 {
      InheritedAt(own, mro[1..], i - 1);
    }
  }

  /** Lookup finds nothing when no class on the MRO holds a value. */
  lemma {:induction false} InheritedNone<T>(own: map<SchemaClass, T>, mro: seq<SchemaClass>)
    requires forall j :: 0 <= j < |mro| ==> mro[j] !in own
    ensures Inherited(own, mro) == None
  {
    if mro != [] {
      InheritedNone(own, mro[1..]);
    }
  }

  /**
   * The class attributes the registry touches, for every class of the
   * hierarchy: the FIELDS a class holds in its own `__dict__`, and the
   * `_fields_map` a class holds in its own `__dict__`.
   */
  datatype ClassDicts<D> = ClassDicts(fields: map<SchemaClass, seq<Field<D>>>,
                                      caches: map<SchemaClass, map<string, Field<D>>>)

  /** At import: EWSElement holds `FIELDS = tuple()`, every subclass inherits it, and no class holds a cache. */
  function Imported<D>(): ClassDicts<D>
  {
    ClassDicts(map[EWSElementClass := []], map[])
  }

  /** `cls.FIELDS`, found along the MRO (EWSElement holds one from import on). */
  function FieldsOf<D>(d: ClassDicts<D>, k: SchemaClass): seq<Field<D>>
  {
    match Inherited(d.fields, Mro(k))
    case Some(fs) => fs
    case None => []
  }

  /** `m[name]` on a name cache: KeyError for a name it does not hold. */
  function LookUp<D>(m: map<string, Field<D>>, name: string): (r: Result<Field<D>>)
    ensures r.Ok? <==> name in m
    ensures r.Ok? ==> r.value == m[name]
    ensures r.Failure? ==> r.error == KeyError
  {
    if name in m then Ok(m[name]) else Failure(KeyError)
  }

  /** No class that k inherits from holds a cache of its own. */
  predicate NoCacheAbove<D>(d: ClassDicts<D>, k: SchemaClass)
  {
    Inherited(d.caches, Mro(k)[1..]).None?
  }

  /**
   * The map get_field_by_fieldname reads on cls: `hasattr` and the
   * attribute read find the first cache along the MRO, and only when
   * there is none is one built from `cls.FIELDS`.
   */
  function CacheInForce<D>(d: ClassDicts<D>, k: SchemaClass): map<string, Field<D>>
  {
    match Inherited(d.caches, Mro(k))
    case Some(m) => m
    case None => NameIndex(FieldsOf(d, k))
  }

  /** get_field_by_fieldname(name) on cls: what it returns. */
  function FieldByName<D>(d: ClassDicts<D>, k: SchemaClass, name: string): Result<Field<D>>
  {
    LookUp(CacheInForce(d, k), name)
  }

  /** get_field_by_fieldname on cls: the new cache goes on cls itself, and only when none was found. */
  function AfterFieldByName<D>(d: ClassDicts<D>, k: SchemaClass): ClassDicts<D>
  {
    if Inherited(d.caches, Mro(k)).Some? then d
    else d.(caches := d.caches[k := NameIndex(FieldsOf(d, k))])
  }

  /** add_field on cls: cls now holds the new FIELDS itself, and `delattr` drops only cls's own cache. */
  function AfterAddField<D>(d: ClassDicts<D>, k: SchemaClass, f: Field<D>, idx: int): ClassDicts<D>
  {
    ClassDicts(d.fields[k := InsertAt(FieldsOf(d, k), f, idx)], d.caches - {k})
  }

  /** remove_field on cls: as add_field, with f filtered out of `cls.FIELDS`. */
  function AfterRemoveField<D(==)>(d: ClassDicts<D>, k: SchemaClass, f: Field<D>): ClassDicts<D>
  {
    ClassDicts(d.fields[k := Without(FieldsOf(d, k), f)], d.caches - {k})
  }

  /**
   * The class attributes of the whole hierarchy, as the classmethods
   * get_field_by_fieldname, add_field and remove_field change them; each
   * method takes the class it is called on.
   */
  class FieldRegistry<D(==)> {
    var fields: map<SchemaClass, seq<Field<D>>>
    var caches: map<SchemaClass, map<string, Field<D>>>

    function Dicts(): ClassDicts<D>
      reads this
    {
      ClassDicts(fields, caches)
    }

    /** EWSElement always holds a FIELDS of its own. */
    ghost predicate Valid()
      reads this
    {
      EWSElementClass in fields
    }

    /** The attributes as the module defines them at import. */
    constructor ()
      ensures Valid() && Dicts() == Imported()
    {
      fields := map[EWSElementClass := []];
      caches := map[];
    }

    /** get_field_by_fieldname: build a cache on cls unless one is found along the MRO, then look the name up. */
    method GetFieldByFieldname(k: SchemaClass, name: string) returns (r: Result<Field<D>>)
      requires Valid()
      modifies this
      ensures Valid() && Dicts() == AfterFieldByName(old(Dicts()), k)
      ensures r == FieldByName(old(Dicts()), k, name)
    {
      if Inherited(caches, Mro(k)).None? {
        caches := caches[k := NameIndex(FieldsOf(Dicts(), k))];
      }
      var m := Inherited(caches, Mro(k)).value;
      if name in m {
        r := Ok(m[name]);
      } else {
        r := Failure(KeyError);
      }
    }

    /** add_field: cls gets the extended FIELDS as its own, and its own cache, if any, is deleted. */
    method AddField(k: SchemaClass, f: Field<D>, idx: int)
      requires Valid()
      modifies this
      ensures Valid() && Dicts() == AfterAddField(old(Dicts()), k, f, idx)
    {
      var current := FieldsOf(Dicts(), k);
      fields := fields[k := current[0..SliceBound(idx, |current|)] + [f] + current[SliceBound(idx, |current|)..]];
      if k in caches {
        caches := caches - {k};
      }
    }

    /** remove_field: cls gets FIELDS without f as its own, and its own cache, if any, is deleted. */
    method RemoveField(k: SchemaClass, f: Field<D>)
      requires Valid()
      modifies this
      ensures Valid() && Dicts() == AfterRemoveField(old(Dicts()), k, f)
    {
      fields := fields[k := Without(FieldsOf(Dicts(), k), f)];
      if k in caches {
        caches := caches - {k};
      }
    }
  }

  /** Deleting cls's own cache leaves cls reading the first cache above it. */
  lemma CacheAfterDelete<D>(d: ClassDicts<D>, k: SchemaClass)
    ensures Inherited(d.caches - {k}, Mro(k)) == Inherited(d.caches, Mro(k)[1..])
  {
    var mro := Mro(k);
    InheritedAgrees(d.caches - {k}, d.caches, mro[1..]);
  }

  /** When no class cls inherits from holds a cache, add_field and remove_field leave cls reading a fresh one. */
  lemma FreshCacheAfterChange<D>(d: ClassDicts<D>, k: SchemaClass, fs: seq<Field<D>>)
    requires NoCacheAbove(d, k)
    ensures var d' := ClassDicts(d.fields[k := fs], d.caches - {k});
      FieldsOf(d', k) == fs && CacheInForce(d', k) == NameIndex(fs)
  {
    CacheAfterDelete(d, k);
  }

  /**
   * After remove_field(f) on cls, no lookup on cls returns f, provided no
   * class cls inherits from holds a cache.
   */
  lemma LookupAfterRemoveMissesField<D>(d: ClassDicts<D>, k: SchemaClass, f: Field<D>, name: string)
    requires NoCacheAbove(d, k)
    ensures FieldByName(AfterRemoveField(d, k, f), k, name) != Ok(f)
  {
    var fs := Without(FieldsOf(d, k), f);
    FreshCacheAfterChange(d, k, fs);
    if name in NameIndex(fs) {
      NameIndexValuesInFields(fs, name);
      WithoutCounts(FieldsOf(d, k), f);
      assert multiset(fs)[f] == 0;
    }
  }

  /**
   * After add_field(f, idx) on cls with idx at or past the end, looking
   * up f's name on cls returns f, provided no class cls inherits from
   * holds a cache.
   */
  lemma LookupAfterAppendFindsField<D>(d: ClassDicts<D>, k: SchemaClass, f: Field<D>, idx: int)
    requires idx >= |FieldsOf(d, k)| && NoCacheAbove(d, k)
    ensures FieldByName(AfterAddField(d, k, f, idx), k, f.name) == Ok(f)
  {
    var fields := FieldsOf(d, k);
    var r := InsertAt(fields, f, idx);
    FreshCacheAfterChange(d, k, r);
    assert r == fields + [f];
    assert r[..|r| - 1] == fields;
  }

  /**
   * As written, a cache built on Mailbox hides a field later added to
   * Room: Room finds Mailbox's cache through `hasattr` and never builds
   * its own.
   */
  lemma InheritedCacheHidesAddedField<D>(f: Field<D>)
    ensures var d := AfterAddField(AfterFieldByName(Imported<D>(), Derived(MailboxClass)), Derived(RoomClass), f, 0);
      && FieldsOf(d, Derived(RoomClass)) == [f]
      && FieldByName(d, Derived(RoomClass), f.name) == Failure(KeyError)
  {
    var m, r := Derived(MailboxClass), Derived(RoomClass);
    assert Mro(r) == [r, m, EWSElementClass] && Mro(m) == [m, EWSElementClass];
    var d0 := Imported<D>();
    InheritedNone(d0.caches, Mro(m));
    InheritedAt(d0.fields, Mro(m), 1);
    InheritedAt(d0.fields, Mro(r), 2);
    var d1 := AfterFieldByName(d0, m);
    assert d1.caches == map[m := map[]] && d1.fields == d0.fields;
    assert FieldsOf(d1, r) == [] && InsertAt([], f, 0) == [f];
    var d := AfterAddField(d1, r, f, 0);
    assert d.fields == map[EWSElementClass := [], r := [f]] && d.caches == map[m := map[]];
    InheritedAt(d.fields, Mro(r), 0);
    InheritedAt(d.caches, Mro(r), 1);
  }

  /**
   * As written, a cache built on ParentItemId hides a field later added
   * to ItemId, whose FIELDS ParentItemId inherits.
   */
  lemma SubclassCacheMissesInheritedField<D>(f: Field<D>)
    ensures var d := AfterAddField(AfterFieldByName(Imported<D>(), Derived(ParentItemIdClass)), Derived(ItemIdClass), f, 0);
      && FieldsOf(d, Derived(ParentItemIdClass)) == [f]
      && FieldByName(d, Derived(ParentItemIdClass), f.name) == Failure(KeyError)
  {
    var p, i := Derived(ParentItemIdClass), Derived(ItemIdClass);
    assert Mro(p) == [p, i, EWSElementClass] && Mro(i) == [i, EWSElementClass];
    var d0 := Imported<D>();
    InheritedNone(d0.caches, Mro(p));
    InheritedAt(d0.fields, Mro(p), 2);
    InheritedAt(d0.fields, Mro(i), 1);
    var d1 := AfterFieldByName(d0, p);
    assert d1.caches == map[p := map[]] && d1.fields == d0.fields;
    assert FieldsOf(d1, i) == [] && InsertAt([], f, 0) == [f];
    var d := AfterAddField(d1, i, f, 0);
    assert d.fields == map[EWSElementClass := [], i := [f]] && d.caches == map[p := map[]];
    InheritedAt(d.fields, Mro(p), 1);
    InheritedAt(d.caches, Mro(p), 0);
  }

  // The registry as add_field's "invalidate the fieldname cache" intends:
  // a class reads only the cache in its own `__dict__`, and a change to
  // FIELDS drops the caches of the class and of every class below it.

  /** get_field_by_fieldname reading the own cache only. */
  function FixedFieldByName<D>(d: ClassDicts<D>, k: SchemaClass, name: string): Result<Field<D>>
  {
    LookUp(if k in d.caches then d.caches[k] else NameIndex(FieldsOf(d, k)), name)
  }

  function FixedAfterFieldByName<D>(d: ClassDicts<D>, k: SchemaClass): ClassDicts<D>
  {
    if k in d.caches then d else d.(caches := d.caches[k := NameIndex(FieldsOf(d, k))])
  }

  /** The caches of the classes that do not inherit from k (k itself included among those dropped). */
  function CachesNotBelow<D>(caches: map<SchemaClass, map<string, Field<D>>>, k: SchemaClass): map<SchemaClass, map<string, Field<D>>>
  {
    map j | j in caches && k !in Mro(j) :: caches[j]
  }

  function FixedAfterAddField<D>(d: ClassDicts<D>, k: SchemaClass, f: Field<D>, idx: int): ClassDicts<D>
  {
    ClassDicts(d.fields[k := InsertAt(FieldsOf(d, k), f, idx)], CachesNotBelow(d.caches, k))
  }

  function FixedAfterRemoveField<D(==)>(d: ClassDicts<D>, k: SchemaClass, f: Field<D>): ClassDicts<D>
  {
    ClassDicts(d.fields[k := Without(FieldsOf(d, k), f)], CachesNotBelow(d.caches, k))
  }

  /** Every cache agrees with the FIELDS of the class holding it. */
  ghost predicate CachesCurrent<D>(d: ClassDicts<D>)
  {
    forall j :: j in d.caches ==> d.caches[j] == NameIndex(FieldsOf(d, j))
  }

  /** Changing k's own FIELDS and dropping the caches at and below k keeps every remaining cache current. */
  lemma ChangeKeepsCachesCurrent<D>(d: ClassDicts<D>, k: SchemaClass, fs: seq<Field<D>>)
    requires CachesCurrent(d)
    ensures CachesCurrent(ClassDicts(d.fields[k := fs], CachesNotBelow(d.caches, k)))
  {
    var d' := ClassDicts(d.fields[k := fs], CachesNotBelow(d.caches, k));
    forall j | j in d'.caches
      ensures d'.caches[j] == NameIndex(FieldsOf(d', j))
    {
      InheritedAgrees(d.fields, d'.fields, Mro(j));
    }
  }

  /** A cache built on a class with none of its own is current. */
  lemma BuildKeepsCachesCurrent<D>(d: ClassDicts<D>, k: SchemaClass)
    requires CachesCurrent(d)
    ensures CachesCurrent(FixedAfterFieldByName(d, k))
  {
    var d' := FixedAfterFieldByName(d, k);
    assert d'.fields == d.fields;
    forall j | j in d'.caches
      ensures d'.caches[j] == NameIndex(FieldsOf(d', j))
    {
      if j != k || k in d.caches {
        assert d'.caches[j] == d.caches[j];
      }
    }
  }

  /**
   * In the corrected registry every cache stays current from import on,
   * so every lookup reads the class's current FIELDS.
   */
  lemma FixedRegistryKeepsCachesCurrent<D>(d: ClassDicts<D>, k: SchemaClass, f: Field<D>, idx: int, name: string)
    requires CachesCurrent(d)
    ensures CachesCurrent(Imported<D>())
    ensures CachesCurrent(FixedAfterFieldByName(d, k))
    ensures CachesCurrent(FixedAfterAddField(d, k, f, idx))
    ensures CachesCurrent(FixedAfterRemoveField(d, k, f))
    ensures FixedFieldByName(d, k, name) == LookUp(NameIndex(FieldsOf(d, k)), name)
  {
    BuildKeepsCachesCurrent(d, k);
    ChangeKeepsCachesCurrent(d, k, InsertAt(FieldsOf(d, k), f, idx));
    ChangeKeepsCachesCurrent(d, k, Without(FieldsOf(d, k), f));
  }

  /** The two call sequences that go wrong as written find the added field in the corrected registry. */
  lemma FixedRegistryFindsAddedField<D>(f: Field<D>)
    ensures var d := FixedAfterAddField(FixedAfterFieldByName(Imported<D>(), Derived(MailboxClass)), Derived(RoomClass), f, 0);
      FixedFieldByName(d, Derived(RoomClass), f.name) == Ok(f)
    ensures var d := FixedAfterAddField(FixedAfterFieldByName(Imported<D>(), Derived(ParentItemIdClass)), Derived(ItemIdClass), f, 0);
      FixedFieldByName(d, Derived(ParentItemIdClass), f.name) == Ok(f)
  {
    var d0 := Imported<D>();
    assert InsertAt([], f, 0) == [f] && NameIndex([f]) == map[f.name := f];
    var m, r := Derived(MailboxClass), Derived(RoomClass);
    assert Mro(r) == [r, m, EWSElementClass];
    var a := FixedAfterFieldByName(d0, m);
    InheritedAt(a.fields, Mro(r), 2);
    var da := FixedAfterAddField(a, r, f, 0);
    assert r !in da.caches && da.fields == a.fields[r := [f]];
    InheritedAt(da.fields, Mro(r), 0);
    var p, i := Derived(ParentItemIdClass), Derived(ItemIdClass);
    assert Mro(p) == [p, i, EWSElementClass] && Mro(i) == [i, EWSElementClass];
    var b := FixedAfterFieldByName(d0, p);
    InheritedAt(b.fields, Mro(i), 1);
    var db := FixedAfterAddField(b, i, f, 0);
    assert p !in db.caches && db.fields == b.fields[i := [f]];
    InheritedAt(db.fields, Mro(p), 1);
  }

  // ------------------------------------------------- Python 3 hashing

  /**
   * What a class body leaves in its own `__dict__` under `__hash__`: the
   * method it defines, or None (Unhashable) when it defines `__eq__`
   * without `__hash__`, which Python 3 does implicitly.
   */
  datatype HashSlot = HashedBy(owner: SchemaClass) | Unhashable

  function OwnHashEntry(k: SchemaClass, definesEq: bool, definesHash: bool): (r: Option<HashSlot>)
    ensures r.None? <==> !definesEq && !definesHash
    ensures r == Some(Unhashable) <==> definesEq && !definesHash
  {
    if definesHash then Some(HashedBy(k)) else if definesEq then Some(Unhashable) else None
  }

  /** The classes whose bodies define `__eq__`: EWSElement and ItemId. */
  predicate DefinesEq(k: SchemaClass)
  {
    k == EWSElementClass || k == Derived(ItemIdClass)
  }

  /** The classes whose bodies define `__hash__`: EWSElement, Mailbox and Attendee. */
  predicate DefinesHash(k: SchemaClass)
  {
    k == EWSElementClass || k == Derived(MailboxClass) || k == Derived(AttendeeClass)
  }

  const SCHEMA_CLASSES: set<SchemaClass> :=
    {EWSElementClass, Derived(MessageHeaderClass), Derived(ItemIdClass), Derived(ParentItemIdClass),
     Derived(RootItemIdClass), Derived(MailboxClass), Derived(AttendeeClass), Derived(RoomListClass),
     Derived(RoomClass)}

  /** The `__hash__` entries of the classes' own dictionaries. */
  function OwnHash(): map<SchemaClass, HashSlot>
  {
    map k | k in SCHEMA_CLASSES && OwnHashEntry(k, DefinesEq(k), DefinesHash(k)).Some? ::
      OwnHashEntry(k, DefinesEq(k), DefinesHash(k)).value
  }

  /** The `__hash__` a class has: the first entry along its MRO. */
  function HashInForce(k: SchemaClass): Option<HashSlot>
  {
    Inherited(OwnHash(), Mro(k))
  }

  /**
   * ItemId's `__eq__` without a `__hash__` makes ItemId, and the
   * subclasses that inherit from it, unhashable; the Mailbox classes hash
   * with Mailbox.__hash__, Attendee with its own, the rest with EWSElement's.
   */
  lemma HashInForceCases(k: SchemaClass)
    ensures HashInForce(k) == Some(Unhashable) <==>
      k == Derived(ItemIdClass) || k == Derived(ParentItemIdClass) || k == Derived(RootItemIdClass)
    ensures k == Derived(MailboxClass) || k == Derived(RoomListClass) || k == Derived(RoomClass) ==>
      HashInForce(k) == Some(HashedBy(Derived(MailboxClass)))
    ensures k == Derived(AttendeeClass) ==> HashInForce(k) == Some(HashedBy(Derived(AttendeeClass)))
    ensures k == EWSElementClass || k == Derived(MessageHeaderClass) ==> HashInForce(k) == Some(HashedBy(EWSElementClass))
  {
    var own := OwnHash();
    var mro := Mro(k);
    match k
    case EWSElementClass =>
      InheritedAt(own, mro, 0);
    case Derived(c) =>
      assert k in SCHEMA_CLASSES;
      if c == ParentItemIdClass || c == RootItemIdClass || c == RoomListClass || c == RoomClass {
        assert mro[1] in SCHEMA_CLASSES && mro[1] in own;
        InheritedAt(own, mro, 1);
      } else if c == MessageHeaderClass {
        assert mro[1] == EWSElementClass && EWSElementClass in SCHEMA_CLASSES;
        InheritedAt(own, mro, 1);
      } else {
        InheritedAt(own, mro, 0);
      }
  }

  // ------------------------------------------------------- MessageHeader

  const HEADER_NAME_ATTR: string := "HeaderName"

  /** A MessageHeader as constructed: name and value are whatever the caller or the XML gave. */
  datatype MessageHeader = MessageHeader(name: Option<string>, value: Option<string>)

  /**
   * MessageHeader.to_xml as a value: the name as the HeaderName attribute,
   * the value as text. lxml refuses a missing attribute value (TypeError)
   * and set_xml_value a missing value (ValueError).
   */
  function EncodeMessageHeader(h: MessageHeader): Result<Element>
  {
    if h.name.None? then Failure(TypeError)
    else if h.value.None? then Failure(ValueError)
    else Ok(Element(Expand(RequestTag(MessageHeaderClass)), [Attr(HEADER_NAME_ATTR, h.name.value)],
                    h.value, []))
  }

  /** MessageHeader.from_xml on a present element: check the tag, read attribute and text. */
  function DecodeMessageHeader(e: Element): Result<MessageHeader>
  {
    if e.tag != ResponseTag(MessageHeaderClass) then Failure(AssertionError)
    else Ok(MessageHeader(GetAttr(e.attrs, HEADER_NAME_ATTR), e.text))
  }

  method MessageHeaderToXml(h: MessageHeader) returns (r: Result<Element>)
    ensures r == EncodeMessageHeader(h)
  {
    if h.name.None? {
      return Failure(TypeError);
    }
    var elem := new XmlNode(RequestTag(MessageHeaderClass));
    elem.Set(HEADER_NAME_ATTR, h.name.value);
    if h.value.None? {
      return Failure(ValueError);
    }
    elem.SetText(h.value.value);
    r := Ok(elem.Value());
  }

  /** from_xml: None for a missing element; the node is cleared once the record is built. */
  method MessageHeaderFromXml(elem: XmlNode?) returns (r: Option<Result<MessageHeader>>)
    modifies elem
    ensures elem == null ==> r == None
    ensures elem != null ==> r == Some(DecodeMessageHeader(old(elem.Value())))
    ensures elem != null ==> elem.Value() == if r.value.Ok? then Emptied(old(elem.Value())) else old(elem.Value())
  {
    if elem == null {
      return None;
    }
    var res := DecodeMessageHeader(elem.Value());
    if res.Ok? {
      elem.Clear();
    }
    r := Some(res);
  }

  /** A header with both parts present survives to_xml and from_xml. */
  lemma MessageHeaderRoundTrip(h: MessageHeader)
    requires h.name.Some? && h.value.Some?
    ensures EncodeMessageHeader(h).Ok?
    ensures DecodeMessageHeader(EncodeMessageHeader(h).value) == Ok(h)
  {
    RequestTagExpandsToResponseTag(MessageHeaderClass);
  }

  /**
   * hash(header): MessageHeader inherits EWSElement.__hash__, the hash of
   * its slot tuple `(name, value)`, or TypeError were it unhashable.
   */
  function MessageHeaderHash(h: MessageHeader): Result<(Option<string>, Option<string>)>
  {
    if HashInForce(Derived(MessageHeaderClass)) == Some(Unhashable) then Failure(TypeError)
    else Ok((h.name, h.value))
  }

  /** EWSElement.__eq__ on headers: `hash(self) == hash(other)`. */
  function MessageHeaderEq(a: MessageHeader, b: MessageHeader): Result<bool>
  {
    match (MessageHeaderHash(a), MessageHeaderHash(b))
    case (Ok(ka), Ok(kb)) => Ok(ka == kb)
    case (Failure(e), _) => Failure(e)
    case (_, Failure(e)) => Failure(e)
  }

  /** Headers hash by their slots, so two headers are equal exactly when name and value agree. */
  lemma MessageHeaderEqualityIsSlots(a: MessageHeader, b: MessageHeader)
    ensures MessageHeaderHash(a) == Ok((a.name, a.value))
    ensures MessageHeaderEq(a, b) == Ok(a == b)
  {
    HashInForceCases(Derived(MessageHeaderClass));
  }

  // ------------------------------------------------------------- ItemIds

  /** ItemId and its subclasses ParentItemId and RootItemId. */
  datatype IdKind = PlainId | ParentId | RootId

  function IdClass(k: IdKind): ElementClass
  {
    match k
    case PlainId => ItemIdClass
    case ParentId => ParentItemIdClass
    case RootId => RootItemIdClass
  }

  /** ID_ATTR: `Id`, overridden by RootItemId. */
  function IdAttr(k: IdKind): string
  {
    if k == RootId then "RootItemId" else "Id"
  }

  /** CHANGEKEY_ATTR: `ChangeKey`, overridden by RootItemId. */
  function ChangeKeyAttr(k: IdKind): string
  {
    if k == RootId then "RootItemChangeKey" else "ChangeKey"
  }

  /** An identity record. Its fields are plain strings because Python lets them be reassigned. */
  datatype ItemId = ItemId(kind: IdKind, id: string, changekey: string)

  predicate ValidItemId(x: ItemId)
  {
    x.id != "" && x.changekey != ""
  }

  /** ItemId.clean on the values given to the constructor (None stands for any non-string). */
  function CleanItemIdFields(id: Option<string>, changekey: Option<string>): (r: Outcome)
    ensures r == Pass <==> Truthy(id) && Truthy(changekey)
    ensures r.Fail? ==> r.error == ValueError
  {
    if !Truthy(id) then Fail(ValueError)
    else if !Truthy(changekey) then Fail(ValueError)
    else Pass
  }

  /** ItemId(...), ParentItemId(...), RootItemId(...): construct, then clean. */
  function NewItemId(kind: IdKind, id: Option<string>, changekey: Option<string>): (r: Result<ItemId>)
    ensures r.Ok? <==> id.Some? && id.value != "" && changekey.Some? && changekey.value != ""
    ensures r.Ok? ==> r.value == ItemId(kind, id.value, changekey.value) && ValidItemId(r.value)
    ensures r.Failure? ==> r.error == ValueError
  {
    match CleanItemIdFields(id, changekey)
    case Fail(e) => Failure(e)
    case Pass => Ok(ItemId(kind, id.value, changekey.value))
  }

  /** ItemId.__eq__: never equal to None; otherwise compare id and changekey only. */
  function ItemIdEquals(x: ItemId, other: Option<ItemId>): (r: bool)
    ensures r ==> other.Some?
    ensures other.Some? ==> (r <==> x.(kind := other.value.kind) == other.value)
  {
    other.Some? && x.id == other.value.id && x.changekey == other.value.changekey
  }

  /**
   * The key ItemId's `__eq__` compares, its slots in order: the key
   * Mailbox.__hash__ evidently means to hash on. As written ItemId has no
   * hash at all (ItemIdUnhashable).
   */
  function ItemIdHashKey(x: ItemId): (string, string)
  {
    (x.id, x.changekey)
  }

  /**
   * Equality is an equivalence that ignores which subclass a record is,
   * and compares exactly the (id, changekey) key.
   */
  lemma ItemIdEqualityIsIdentity(x: ItemId, y: ItemId, z: ItemId)
    ensures ItemIdEquals(x, Some(x))
    ensures ItemIdEquals(x, Some(y)) == ItemIdEquals(y, Some(x))
    ensures ItemIdEquals(x, Some(y)) && ItemIdEquals(y, Some(z)) ==> ItemIdEquals(x, Some(z))
    ensures ItemIdEquals(x, Some(y)) <==> ItemIdHashKey(x) == ItemIdHashKey(y)
    ensures ItemIdEquals(x, Some(y)) == ItemIdEquals(x.(kind := y.kind), Some(y))
    ensures !ItemIdEquals(x, None)
  {
  }

  /** hash(item_id): the slot tuple, or TypeError when the class has `__hash__ = None`. */
  function ItemIdHash(x: ItemId): Result<(string, string)>
  {
    if HashInForce(Derived(IdClass(x.kind))) == Some(Unhashable) then Failure(TypeError)
    else Ok(ItemIdHashKey(x))
  }

  /** ItemId defines `__eq__` without `__hash__`, so hashing any ItemId, ParentItemId or RootItemId raises TypeError. */
  lemma ItemIdUnhashable(x: ItemId)
    ensures ItemIdHash(x) == Failure(TypeError)
  {
    HashInForceCases(Derived(IdClass(x.kind)));
  }

  /** ItemId.to_xml as a value: the request tag with the two attributes, id first. */
  function EncodeItemId(x: ItemId): Element
  {
    Element(Expand(RequestTag(IdClass(x.kind))),
            [Attr(IdAttr(x.kind), x.id), Attr(ChangeKeyAttr(x.kind), x.changekey)], None, [])
  }

  /** ItemId.from_xml on a present element of class `kind`: check the tag, read both attributes, construct. */
  function DecodeItemId(kind: IdKind, e: Element): Result<ItemId>
  {
    if e.tag != ResponseTag(IdClass(kind)) then Failure(AssertionError)
    else NewItemId(kind, GetAttr(e.attrs, IdAttr(kind)), GetAttr(e.attrs, ChangeKeyAttr(kind)))
  }

  /** to_xml: clean (ValueError on an empty field), then set Id and ChangeKey on a fresh element. */
  method ItemIdToXml(x: ItemId) returns (r: Result<Element>)
    ensures r == if ValidItemId(x) then Ok(EncodeItemId(x)) else Failure(ValueError)
  {
    var outcome := CleanItemIdFields(Some(x.id), Some(x.changekey));
    if outcome.Fail? {
      return Failure(outcome.error);
    }
    SetTwoAttrs(IdAttr(x.kind), x.id, ChangeKeyAttr(x.kind), x.changekey);
    var elem := new XmlNode(RequestTag(IdClass(x.kind)));
    elem.Set(IdAttr(x.kind), x.id);
    elem.Set(ChangeKeyAttr(x.kind), x.changekey);
    r := Ok(elem.Value());
  }

  /** from_xml: None for a missing element; the node is cleared once the record is built. */
  method ItemIdFromXml(kind: IdKind, elem: XmlNode?) returns (r: Option<Result<ItemId>>)
    modifies elem
    ensures elem == null ==> r == None
    ensures elem != null ==> r == Some(DecodeItemId(kind, old(elem.Value())))
    ensures elem != null ==> elem.Value() == if r.value.Ok? then Emptied(old(elem.Value())) else old(elem.Value())
  {
    if elem == null {
      return None;
    }
    var res := DecodeItemId(kind, elem.Value());
    if res.Ok? {
      elem.Clear();
    }
    r := Some(res);
  }

  /** Every valid ItemId, ParentItemId and RootItemId survives to_xml and from_xml unchanged. */
  lemma ItemIdRoundTrip(x: ItemId)
    requires ValidItemId(x)
    ensures DecodeItemId(x.kind, EncodeItemId(x)) == Ok(x)
  {
    RequestTagExpandsToResponseTag(IdClass(x.kind));
    var attrs := EncodeItemId(x).attrs;
    assert IdAttr(x.kind) != ChangeKeyAttr(x.kind);
    assert GetAttr(attrs, IdAttr(x.kind)) == Some(x.id);
    assert GetAttr(attrs, ChangeKeyAttr(x.kind)) == Some(x.changekey);
  }
}
