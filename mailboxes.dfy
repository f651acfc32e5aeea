/**
 * Mailbox (with its subclasses RoomList and Room) and Attendee from
 * exchangelib/properties.py: validation, XML encoding and decoding, and
 * the identity key that their hashing and equality rest on.
 */
module Mailboxes {
  import opened Common
  import opened Xml
  import opened Properties

  // -------------------------------------------------------------- Mailbox

  /** Mailbox and the two subclasses that share its fields. */
  datatype MailboxKind = PlainMailbox | RoomListKind | RoomKind

  function MailboxClassOf(k: MailboxKind): ElementClass
  {
    match k
    case PlainMailbox => MailboxClass
    case RoomListKind => RoomListClass
    case RoomKind => RoomClass
  }

  /** MAILBOX_TYPES. */
  const MAILBOX_TYPES: set<string> :=
    {"Mailbox", "PublicDL", "PrivateDL", "Contact", "PublicFolder", "Unknown", "OneOff"}

  datatype Mailbox = Mailbox(
    kind: MailboxKind,
    name: Option<string>,
    emailAddress: Option<string>,
    mailboxType: Option<string>,
    itemId: Option<ItemId>)

  /** Mailbox.clean: the mailbox_type assertion first, then "email_address or item_id". */
  function CleanMailbox(m: Mailbox): (r: Outcome)
    ensures r == Pass <==>
      (m.mailboxType.Some? ==> m.mailboxType.value in MAILBOX_TYPES) && (Truthy(m.emailAddress) || m.itemId.Some?)
    ensures r == Fail(AssertionError) <==> m.mailboxType.Some? && m.mailboxType.value !in MAILBOX_TYPES
    ensures r == Fail(AttributeError) <==>
      (m.mailboxType.Some? ==> m.mailboxType.value in MAILBOX_TYPES) && !Truthy(m.emailAddress) && m.itemId.None?
  {
    if m.mailboxType.Some? && m.mailboxType.value !in MAILBOX_TYPES then Fail(AssertionError)
    else if !Truthy(m.emailAddress) && m.itemId.None? then Fail(AttributeError)
    else Pass
  }

  /** Mailbox(...): construct, then clean. */
  function NewMailbox(m: Mailbox): (r: Result<Mailbox>)
    ensures r.Ok? <==> CleanMailbox(m) == Pass
    ensures r.Ok? ==> r.value == m
  {
    match CleanMailbox(m)
    case Fail(e) => Failure(e)
    case Pass => Ok(m)
  }

  /** One add_xml_child call guarded by the field's truthiness. */
  function OptionalChild(local: string, s: Option<string>): seq<Element>
  {
    if Truthy(s) then [TextElement(local, s.value)] else []
  }

  /** Name, EmailAddress and MailboxType children, in that order, each only when the field is truthy. */
  function TextChildren(m: Mailbox): seq<Element>
  {
    OptionalChild("Name", m.name) + OptionalChild("EmailAddress", m.emailAddress)
    + OptionalChild("MailboxType", m.mailboxType)
  }

  /** The item id child, after the text children, when there is an item id. */
  function ItemIdChild(m: Mailbox): seq<Element>
  {
    if m.itemId.Some? then [EncodeItemId(m.itemId.value)] else []
  }

  /**
   * Mailbox.to_xml as a value: clean, then the request tag of the
   * mailbox's class with the text children and, last, the item id's own
   * encoding (whose clean may fail).
   */
  function EncodeMailbox(m: Mailbox): Result<Element>
  {
    if CleanMailbox(m).Fail? then Failure(CleanMailbox(m).error)
    else if m.itemId.Some? && !ValidItemId(m.itemId.value) then Failure(ValueError)
    else Ok(Element(Expand(RequestTag(MailboxClassOf(m.kind))), [], None, TextChildren(m) + ItemIdChild(m)))
  }

  /** `ItemId.from_xml(elem=src.find(ItemId.response_tag()))`: None for a missing child, else its decoding. */
  function ItemIdArg(src: Element): Result<Option<ItemId>>
  {
    match FindChild(src.children, ResponseTag(ItemIdClass))
    case None => Ok(None)
    case Some(ie) =>
      match DecodeItemId(PlainId, ie)
      case Ok(x) => Ok(Some(x))
      case Failure(e) => Failure(e)
  }

  /** The element holding the fields after that call: the ItemId child it decoded has been cleared. */
  function AfterItemIdArg(src: Element): (r: Element)
    ensures r.tag == src.tag && r.attrs == src.attrs && r.text == src.text
  {
    match FindChild(src.children, ResponseTag(ItemIdClass))
    case None => src
    case Some(ie) =>
      if DecodeItemId(PlainId, ie).Ok? then src.(children := ReplaceFirst(src.children, ResponseTag(ItemIdClass), Emptied(ie)))
      else src
  }

  /** Mailbox.from_xml after the tag check, on the element holding the fields. */
  function DecodeMailboxFields(kind: MailboxKind, src: Element): Result<Mailbox>
  {
    var itemId := ItemIdArg(src);
    if itemId.Failure? then Failure(itemId.error)
    else NewMailbox(Mailbox(kind,
                            ChildText(src, Clark(TNS, "Name")),
                            ChildText(src, Clark(TNS, "EmailAddress")),
                            ChildText(src, Clark(TNS, "MailboxType")),
                            itemId.value))
  }

  /**
   * from_xml of Mailbox and RoomList (fields on the element itself) and of
   * Room (fields on its `{TNS}Id` child; a missing child makes the field
   * reads fail with AttributeError).
   */
  function DecodeMailbox(kind: MailboxKind, e: Element): Result<Mailbox>
  {
    if e.tag != ResponseTag(MailboxClassOf(kind)) then Failure(AssertionError)
    else if kind == RoomKind then
      match FindChild(e.children, Clark(TNS, "Id"))
      case None => Failure(AttributeError)
      case Some(idElem) => DecodeMailboxFields(kind, idElem)
    else DecodeMailboxFields(kind, e)
  }

  /** The `{TNS}Id` child Room reads its fields from. */
  const ID_TAG: string := Clark(TNS, "Id")

  /**
   * The node from_xml leaves behind. A successful decode clears it. A
   * failed one leaves it as it was, except that the ItemId child (inside
   * the Id child, for Room) has been cleared when that child decoded
   * before the mailbox's own clean failed.
   */
  function MailboxAfterDecode(kind: MailboxKind, e: Element): (r: Element)
    ensures r.tag == e.tag
  {
    if e.tag != ResponseTag(MailboxClassOf(kind)) then e
    else if DecodeMailbox(kind, e).Ok? then Emptied(e)
    else if kind == RoomKind then
      match FindChild(e.children, ID_TAG)
      case None => e
      case Some(idElem) => e.(children := ReplaceFirst(e.children, ID_TAG, AfterItemIdArg(idElem)))
    else AfterItemIdArg(e)
  }

  method MailboxToXml(m: Mailbox) returns (r: Result<Element>)
    ensures r == EncodeMailbox(m)
  {
    var outcome := CleanMailbox(m);
    if outcome.Fail? {
      return Failure(outcome.error);
    }
    var mailbox := new XmlNode(RequestTag(MailboxClassOf(m.kind)));
    AddTextFields(mailbox, m);
    assert mailbox.children == TextChildren(m);
    if m.itemId.Some? {
      var idElem := ItemIdToXml(m.itemId.value);
      if idElem.Failure? {
        return Failure(idElem.error);
      }
      mailbox.Append(idElem.value);
    }
    assert mailbox.children == TextChildren(m) + ItemIdChild(m);
    r := Ok(mailbox.Value());
  }

  /** The add_xml_child calls of to_xml: Name, EmailAddress and MailboxType, each only when truthy. */
  method AddTextFields(mailbox: XmlNode, m: Mailbox)
    modifies mailbox
    ensures mailbox.Value() == old(mailbox.Value()).(children := old(mailbox.children) + TextChildren(m))
  {
    ghost var start := mailbox.children;
    if Truthy(m.name) {
      mailbox.Append(TextElement("Name", m.name.value));
    }
    assert mailbox.children == start + OptionalChild("Name", m.name);
    if Truthy(m.emailAddress) {
      mailbox.Append(TextElement("EmailAddress", m.emailAddress.value));
    }
    assert mailbox.children == start + OptionalChild("Name", m.name) + OptionalChild("EmailAddress", m.emailAddress);
    if Truthy(m.mailboxType) {
      mailbox.Append(TextElement("MailboxType", m.mailboxType.value));
    }
    assert mailbox.children == start + OptionalChild("Name", m.name) + OptionalChild("EmailAddress", m.emailAddress)
                               + OptionalChild("MailboxType", m.mailboxType);
    assert start + OptionalChild("Name", m.name) + OptionalChild("EmailAddress", m.emailAddress)
           + OptionalChild("MailboxType", m.mailboxType) == start + TextChildren(m);
  }

  /** `ItemId.from_xml(elem=holder.find(ItemId.response_tag()))`, with what that call does to the child it finds. */
  method ReadItemIdChild(holder: XmlNode) returns (r: Result<Option<ItemId>>)
    modifies holder
    ensures r == ItemIdArg(old(holder.Value()))
    ensures holder.Value() == AfterItemIdArg(old(holder.Value()))
  {
    var found := FindChild(holder.children, ResponseTag(ItemIdClass));
    if found.None? {
      return Ok(None);
    }
    var child := new XmlNode.Of(found.value);
    var res := ItemIdFromXml(PlainId, child);
    if res.value.Failure? {
      return Failure(res.value.error);
    }
    holder.ReplaceChild(ResponseTag(ItemIdClass), child.Value());
    r := Ok(Some(res.value.value));
  }

  /**
   * from_xml: None for a missing element; otherwise check the tag, read
   * the fields (from the Id child, for Room), decode the item id, which
   * clears its child, construct, and clear the node once that succeeds.
   */
  method MailboxFromXml(kind: MailboxKind, elem: XmlNode?) returns (r: Option<Result<Mailbox>>)
    modifies elem
    ensures elem == null ==> r == None
    ensures elem != null ==> r == Some(DecodeMailbox(kind, old(elem.Value())))
    ensures elem != null ==> elem.Value() == MailboxAfterDecode(kind, old(elem.Value()))
  {
    if elem == null {
      return None;
    }
    if elem.tag != ResponseTag(MailboxClassOf(kind)) {
      return Some(Failure(AssertionError));
    }
    var src: XmlNode := elem;
    if kind == RoomKind {
      var idElem := FindChild(elem.children, ID_TAG);
      if idElem.None? {
        return Some(Failure(AttributeError));
      }
      src := new XmlNode.Of(idElem.value);
    }
    var fields := src.Value();
    var name := ChildText(fields, Clark(TNS, "Name"));
    var emailAddress := ChildText(fields, Clark(TNS, "EmailAddress"));
    var mailboxType := ChildText(fields, Clark(TNS, "MailboxType"));
    var itemId := ReadItemIdChild(src);
    if kind == RoomKind {
      elem.ReplaceChild(ID_TAG, src.Value());
    }
    if itemId.Failure? {
      return Some(Failure(itemId.error));
    }
    var res := NewMailbox(Mailbox(kind, name, emailAddress, mailboxType, itemId.value));
    if res.Ok? {
      elem.Clear();
    }
    r := Some(res);
  }

  /**
   * A failed decode of a Mailbox or RoomList element changes at most one
   * child, the first ItemId child, which then keeps only its tag.
   */
  lemma FailedDecodeClearsOnlyItemId(kind: MailboxKind, e: Element)
    requires kind != RoomKind && DecodeMailbox(kind, e).Failure?
    ensures var r := MailboxAfterDecode(kind, e);
      && r.tag == e.tag && r.attrs == e.attrs && r.text == e.text && |r.children| == |e.children|
      && forall i :: 0 <= i < |e.children| && r.children[i] != e.children[i] ==>
           e.children[i].tag == ResponseTag(ItemIdClass) && r.children[i] == Emptied(e.children[i])
  {
    var t := ResponseTag(ItemIdClass);
    if e.tag == ResponseTag(MailboxClassOf(kind)) && FindChild(e.children, t).Some? {
      var k := FirstIndex(e.children, t);
      assert ReplaceFirst(e.children, t, Emptied(e.children[k])) == e.children[k := Emptied(e.children[k])];
    }
  }

  /**
   * A Mailbox element with a bad MailboxType and a valid ItemId child:
   * from_xml raises AssertionError, yet the ItemId child has already been
   * cleared.
   */
  lemma BadTypeStillClearsItemId(x: ItemId, mailboxType: string)
    requires x.kind == PlainId && ValidItemId(x) && mailboxType != "" && mailboxType !in MAILBOX_TYPES
    ensures var e := Element(ResponseTag(MailboxClass), [], None, [TextElement("MailboxType", mailboxType), EncodeItemId(x)]);
      && DecodeMailbox(PlainMailbox, e) == Failure(AssertionError)
      && MailboxAfterDecode(PlainMailbox, e).children == [TextElement("MailboxType", mailboxType), Emptied(EncodeItemId(x))]
  {
    var typeChild := TextElement("MailboxType", mailboxType);
    var kids := [typeChild, EncodeItemId(x)];
    var e := Element(ResponseTag(MailboxClass), [], None, kids);
    var t := ResponseTag(ItemIdClass);
    RequestTagExpandsToResponseTag(ItemIdClass);
    ClarkInjective(TNS, "MailboxType", "ItemId");
    assert kids[0].tag != t && kids[1].tag == t;
    assert FindChild(kids, t) == Some(kids[1]) && FirstIndex(kids, t) == 1;
    ItemIdRoundTrip(x);
    assert ItemIdArg(e) == Ok(Some(x));
    assert FindChild(kids, Clark(TNS, "MailboxType")) == Some(typeChild);
    assert ChildText(e, Clark(TNS, "MailboxType")) == Some(mailboxType);
    assert DecodeMailboxFields(PlainMailbox, e) == Failure(AssertionError);
    assert AfterItemIdArg(e).children == kids[1 := Emptied(kids[1])];
  }

  /** A mailbox whose optional strings are absent or non-empty, as the server sends them. */
  predicate Normalised(m: Mailbox)
  {
    && (m.name.Some? ==> m.name.value != "")
    && (m.emailAddress.Some? ==> m.emailAddress.value != "")
    && (m.mailboxType.Some? ==> m.mailboxType.value != "")
    && (m.itemId.Some? ==> m.itemId.value.kind == PlainId && ValidItemId(m.itemId.value))
  }

  /** Looking a types-namespace tag up in one optional child. */
  lemma OptionalChildLookup(local: string, s: Option<string>, wanted: string)
    ensures FindChild(OptionalChild(local, s), Clark(TNS, wanted)) ==
      if Truthy(s) && local == wanted then Some(TextElement(local, s.value)) else None
  {
    ClarkInjective(TNS, local, wanted);
  }

  /** Looking a types-namespace tag up in the children of an encoded mailbox. */
  lemma MailboxChildLookup(m: Mailbox, wanted: string)
    requires m.itemId.Some? ==> m.itemId.value.kind == PlainId
    ensures var kids := TextChildren(m) + ItemIdChild(m);
      && (wanted == "Name" ==> FindChild(kids, Clark(TNS, wanted)) == if Truthy(m.name) then Some(TextElement(wanted, m.name.value)) else None)
      && (wanted == "EmailAddress" ==> FindChild(kids, Clark(TNS, wanted)) == if Truthy(m.emailAddress) then Some(TextElement(wanted, m.emailAddress.value)) else None)
      && (wanted == "MailboxType" ==> FindChild(kids, Clark(TNS, wanted)) == if Truthy(m.mailboxType) then Some(TextElement(wanted, m.mailboxType.value)) else None)
      && (wanted == "ItemId" ==> FindChild(kids, Clark(TNS, wanted)) == if m.itemId.Some? then Some(EncodeItemId(m.itemId.value)) else None)
  {
    var a := OptionalChild("Name", m.name);
    var b := OptionalChild("EmailAddress", m.emailAddress);
    var c := OptionalChild("MailboxType", m.mailboxType);
    var d := ItemIdChild(m);
    FindChildConcat(a + b + c, d, Clark(TNS, wanted));
    FindChildConcat(a + b, c, Clark(TNS, wanted));
    FindChildConcat(a, b, Clark(TNS, wanted));
    OptionalChildLookup("Name", m.name, wanted);
    OptionalChildLookup("EmailAddress", m.emailAddress, wanted);
    OptionalChildLookup("MailboxType", m.mailboxType, wanted);
    if m.itemId.Some? {
      RequestTagExpandsToResponseTag(ItemIdClass);
      ClarkInjective(TNS, "ItemId", wanted);
    }
  }

  /** Reading the fields of a mailbox element that holds what m holds. */
  lemma DecodeFieldsOf(kind: MailboxKind, src: Element, m: Mailbox)
    requires m.kind == kind && CleanMailbox(m) == Pass
    requires m.itemId.Some? ==> m.itemId.value.kind == PlainId && ValidItemId(m.itemId.value)
    requires ChildText(src, Clark(TNS, "Name")) == m.name
    requires ChildText(src, Clark(TNS, "EmailAddress")) == m.emailAddress
    requires ChildText(src, Clark(TNS, "MailboxType")) == m.mailboxType
    requires FindChild(src.children, ResponseTag(ItemIdClass)) ==
      if m.itemId.Some? then Some(EncodeItemId(m.itemId.value)) else None
    ensures DecodeMailboxFields(kind, src) == Ok(m)
  {
    if m.itemId.Some? {
      ItemIdRoundTrip(m.itemId.value);
    }
  }

  /** get_xml_attr on a child found with a non-empty text reads that text. */
  lemma ChildTextOfFound(e: Element, local: string, s: Option<string>)
    requires s.Some? ==> s.value != ""
    requires FindChild(e.children, Clark(TNS, local)) == if Truthy(s) then Some(TextElement(local, s.value)) else None
    ensures ChildText(e, Clark(TNS, local)) == s
  {
  }

  /** A valid, normalised Mailbox survives to_xml and from_xml unchanged. */
  lemma MailboxRoundTrip(m: Mailbox)
    requires m.kind == PlainMailbox && CleanMailbox(m) == Pass && Normalised(m)
    ensures EncodeMailbox(m).Ok?
    ensures DecodeMailbox(PlainMailbox, EncodeMailbox(m).value) == Ok(m)
  {
    RequestTagExpandsToResponseTag(MailboxClass);
    var e := EncodeMailbox(m).value;
    assert e.children == TextChildren(m) + ItemIdChild(m);
    MailboxChildLookup(m, "Name");
    MailboxChildLookup(m, "EmailAddress");
    MailboxChildLookup(m, "MailboxType");
    MailboxChildLookup(m, "ItemId");
    ChildTextOfFound(e, "Name", m.name);
    ChildTextOfFound(e, "EmailAddress", m.emailAddress);
    ChildTextOfFound(e, "MailboxType", m.mailboxType);
    assert ResponseTag(ItemIdClass) == Clark(TNS, "ItemId");
    DecodeFieldsOf(PlainMailbox, e, m);
    assert e.tag == ResponseTag(MailboxClass);
  }

  /** A RoomList encodes under `{MNS}RoomList` but is decoded only from `{TNS}Address`. */
  lemma RoomListDoesNotRoundTrip(m: Mailbox)
    requires m.kind == RoomListKind && EncodeMailbox(m).Ok?
    ensures DecodeMailbox(RoomListKind, EncodeMailbox(m).value) == Failure(AssertionError)
  {
    RequestTagExpandsToResponseTag(RoomListClass);
  }

  /** The identity a Mailbox hashes on. */
  datatype IdentityKey = ByItemId(id: string, changekey: string) | ByEmail(address: string)

  /**
   * The identity Mailbox.__hash__ evidently means: the item id's
   * (id, changekey) when present, else the lower-cased email address.
   * MailboxHash is the method as written.
   */
  function MailboxKey(m: Mailbox): (k: IdentityKey)
    requires m.itemId.Some? || m.emailAddress.Some?
    ensures k.ByItemId? <==> m.itemId.Some?
    ensures k.ByItemId? ==> ItemIdEquals(m.itemId.value, Some(ItemId(m.itemId.value.kind, k.id, k.changekey)))
    ensures k.ByEmail? ==> k.address == Lower(m.emailAddress.value)
  {
    if m.itemId.Some? then ByItemId(m.itemId.value.id, m.itemId.value.changekey)
    else ByEmail(Lower(m.emailAddress.value))
  }

  /** EWSElement.__eq__ on mailboxes, `hash(self) == hash(other)`, over the intended keys. */
  function MailboxEquals(a: Mailbox, b: Mailbox): (r: bool)
    requires a.itemId.Some? || a.emailAddress.Some?
    requires b.itemId.Some? || b.emailAddress.Some?
    ensures a.itemId.Some? && b.itemId.Some? ==> (r <==> ItemIdEquals(a.itemId.value, b.itemId))
    ensures a.itemId.Some? != b.itemId.Some? ==> !r
    ensures a.itemId.None? && b.itemId.None? ==> (r <==> Lower(a.emailAddress.value) == Lower(b.emailAddress.value))
  {
    MailboxKey(a) == MailboxKey(b)
  }

  /**
   * Mailbox.__hash__ as written: `hash(self.item_id)` when an item id is
   * present, else `hash(self.email_address.lower())`, which raises
   * AttributeError on a missing address.
   */
  function MailboxHash(m: Mailbox): Result<IdentityKey>
  {
    if m.itemId.Some? then
      match ItemIdHash(m.itemId.value)
      case Ok(key) => Ok(ByItemId(key.0, key.1))
      case Failure(e) => Failure(e)
    else if m.emailAddress.None? then Failure(AttributeError)
    else Ok(ByEmail(Lower(m.emailAddress.value)))
  }

  /** EWSElement.__eq__ on mailboxes as written: hash the left side, then the right, and compare. */
  function MailboxEq(a: Mailbox, b: Mailbox): Result<bool>
  {
    match MailboxHash(a)
    case Failure(e) => Failure(e)
    case Ok(ka) =>
      match MailboxHash(b)
      case Failure(e) => Failure(e)
      case Ok(kb) => Ok(ka == kb)
  }

  /**
   * As written, hashing a mailbox with an item id raises TypeError
   * (ItemId is unhashable); one without either raises AttributeError;
   * one keyed by its email hashes as MailboxKey says.
   */
  lemma MailboxHashCases(m: Mailbox)
    ensures m.itemId.Some? ==> MailboxHash(m) == Failure(TypeError)
    ensures m.itemId.None? && m.emailAddress.None? ==> MailboxHash(m) == Failure(AttributeError)
    ensures m.itemId.None? && m.emailAddress.Some? ==> MailboxHash(m) == Ok(MailboxKey(m))
  {
    if m.itemId.Some? {
      ItemIdUnhashable(m.itemId.value);
    }
  }

  /**
   * As written, comparing two mailboxes succeeds exactly when neither has
   * an item id and both have an email, and then agrees with MailboxEquals;
   * a left side with an item id raises TypeError.
   */
  lemma MailboxEqCases(a: Mailbox, b: Mailbox)
    ensures MailboxEq(a, b).Ok? <==>
      a.itemId.None? && a.emailAddress.Some? && b.itemId.None? && b.emailAddress.Some?
    ensures MailboxEq(a, b).Ok? ==> MailboxEq(a, b).value == MailboxEquals(a, b)
    ensures a.itemId.Some? ==> MailboxEq(a, b) == Failure(TypeError)
  {
    MailboxHashCases(a);
    MailboxHashCases(b);
  }

  /**
   * `Mailbox(email_address='a@x', item_id=ItemId('i', 'c'))`: equal to
   * itself by the intended key, yet both `hash(m)` and `m == m` raise
   * TypeError.
   */
  lemma ItemIdMailboxHashRaises()
    ensures var m := Mailbox(PlainMailbox, None, Some("a@x"), None, Some(ItemId(PlainId, "i", "c")));
      && CleanMailbox(m) == Pass
      && MailboxEquals(m, m)
      && MailboxHash(m) == Failure(TypeError)
      && MailboxEq(m, m) == Failure(TypeError)
  {
    var m := Mailbox(PlainMailbox, None, Some("a@x"), None, Some(ItemId(PlainId, "i", "c")));
    MailboxEqCases(m, m);
  }

  /** Every mailbox that passed clean has a hash key. */
  lemma CleanMailboxHasKey(m: Mailbox)
    requires CleanMailbox(m) == Pass
    ensures m.itemId.Some? || m.emailAddress.Some?
  {
  }

  /**
   * The key ignores name, mailbox type and subclass, ignores the email
   * when an item id is present, and ignores the case of the email.
   */
  lemma MailboxKeyStableUnderServerEdits(m: Mailbox, name: Option<string>, mailboxType: Option<string>,
                                         kind: MailboxKind, email: string)
    requires m.itemId.Some? || m.emailAddress.Some?
    ensures MailboxEquals(m, m.(name := name, mailboxType := mailboxType, kind := kind))
    ensures m.itemId.Some? ==> MailboxEquals(m, m.(emailAddress := Some(email)))
    ensures m.itemId.None? ==>
      MailboxEquals(m, m.(emailAddress := Some(Lower(m.emailAddress.value))))
  {
    if m.itemId.None? {
      LowerIdempotent(m.emailAddress.value);
    }
  }

  /** Two mailboxes with matching item ids are equal whatever their emails; item-id keys never equal email keys. */
  lemma MailboxEqualityByItemId(a: Mailbox, b: Mailbox)
    requires a.itemId.Some? && (b.itemId.Some? || b.emailAddress.Some?)
    ensures MailboxEquals(a, b) <==> b.itemId.Some? && ItemIdEquals(a.itemId.value, b.itemId)
  {
  }

  // ------------------------------------------------------------- Attendee

  /** RESPONSE_TYPES. */
  const RESPONSE_TYPES: set<string> :=
    {"Unknown", "Organizer", "Tentative", "Accept", "Decline", "NoResponseReceived"}

  /** What an Attendee's `mailbox` slot may hold: a Mailbox, a bare address, or nothing. */
  datatype MailboxArg = Record(mailbox: Mailbox) | Address(address: string) | NoMailbox

  /** The slots of an Attendee; the last response time is kept as its XML text. */
  datatype AttendeeState = AttendeeState(
    mailbox: MailboxArg,
    responseType: Option<string>,
    lastResponseTime: Option<string>)

  /** The Mailbox a bare address is coerced into. */
  function AddressMailbox(address: string): Mailbox
  {
    Mailbox(PlainMailbox, None, Some(address), None, None)
  }

  /** The checks of Attendee.clean after the coercion. */
  function CheckAttendee(s: AttendeeState): Outcome
  {
    if !s.mailbox.Record? then Fail(AssertionError)
    else if s.responseType.None? || s.responseType.value !in RESPONSE_TYPES then Fail(AssertionError)
    else Pass
  }

  /**
   * Attendee.clean as a state transformer: the new slots and the outcome.
   * A bare address is replaced by a Mailbox only if that Mailbox can be
   * constructed; the remaining checks run on the updated slots.
   */
  function CleanAttendee(s: AttendeeState): (AttendeeState, Outcome)
  {
    if s.mailbox.Address? then
      var m := AddressMailbox(s.mailbox.address);
      if CleanMailbox(m).Fail? then (s, CleanMailbox(m))
      else (s.(mailbox := Record(m)), CheckAttendee(s.(mailbox := Record(m))))
    else (s, CheckAttendee(s))
  }

  /** What clean does: coerce a usable address, keep the other slots, and succeed exactly on valid slots. */
  lemma CleanAttendeeEffect(s: AttendeeState)
    ensures var (t, r) := CleanAttendee(s);
      && t.responseType == s.responseType && t.lastResponseTime == s.lastResponseTime
      && (s.mailbox.Address? && s.mailbox.address != "" ==> t.mailbox == Record(AddressMailbox(s.mailbox.address)))
      && (!(s.mailbox.Address? && s.mailbox.address != "") ==> t.mailbox == s.mailbox)
      && (r == Pass <==>
            (s.mailbox.Record? || (s.mailbox.Address? && s.mailbox.address != ""))
            && s.responseType.Some? && s.responseType.value in RESPONSE_TYPES)
  {
  }

  /** Cleaning twice is cleaning once: same slots, same outcome. */
  lemma CleanAttendeeIdempotent(s: AttendeeState)
    ensures CleanAttendee(CleanAttendee(s).0) == CleanAttendee(s)
  {
  }

  /** Attendee.to_xml as a value: clean, then the mailbox, ResponseType and, if set, LastResponseTime. */
  function EncodeAttendee(s: AttendeeState): Result<Element>
  {
    var (t, outcome) := CleanAttendee(s);
    if outcome.Fail? then Failure(outcome.error)
    else
      match EncodeMailbox(t.mailbox.mailbox)
      case Failure(e) => Failure(e)
      case Ok(me) =>
        Ok(Element(Expand(RequestTag(AttendeeClass)), [], None,
                   [me, TextElement("ResponseType", t.responseType.value)]
                   + (if t.lastResponseTime.Some? then [TextElement("LastResponseTime", t.lastResponseTime.value)] else [])))
  }

  /**
   * Attendee.from_xml on a present element: check the tag, decode the
   * Mailbox child, default a missing ResponseType to 'Unknown', construct
   * (which cleans).
   */
  function DecodeAttendee(e: Element): Result<AttendeeState>
  {
    if e.tag != ResponseTag(AttendeeClass) then Failure(AssertionError)
    else
      var mailbox := MailboxArgOf(e);
      if mailbox.Failure? then Failure(mailbox.error)
      else
        var s := AttendeeState(mailbox.value, ResponseTypeArg(e), ChildText(e, Clark(TNS, "LastResponseTime")));
        var (t, outcome) := CleanAttendee(s);
        if outcome.Fail? then Failure(outcome.error) else Ok(t)
  }

  /** `Mailbox.from_xml(elem=elem.find(Mailbox.response_tag()))`: no mailbox for a missing child, else its decoding. */
  function MailboxArgOf(e: Element): Result<MailboxArg>
  {
    match FindChild(e.children, ResponseTag(MailboxClass))
    case None => Ok(NoMailbox)
    case Some(me) =>
      match DecodeMailbox(PlainMailbox, me)
      case Ok(m) => Ok(Record(m))
      case Failure(err) => Failure(err)
  }

  /** `get_xml_attr(elem, '{TNS}ResponseType') or 'Unknown'`. */
  function ResponseTypeArg(e: Element): Option<string>
  {
    match ChildText(e, Clark(TNS, "ResponseType"))
    case None => Some("Unknown")
    case Some(rt) => Some(rt)
  }

  /** An Attendee whose state Python mutates in clean(). */
  class Attendee {
    var mailbox: MailboxArg
    var responseType: Option<string>
    var lastResponseTime: Option<string>

    function State(): AttendeeState
      reads this
    {
      AttendeeState(mailbox, responseType, lastResponseTime)
    }

    /** The slot assignments of __init__, before its call to clean. */
    constructor (mailbox: MailboxArg, responseType: Option<string>, lastResponseTime: Option<string>)
      ensures State() == AttendeeState(mailbox, responseType, lastResponseTime)
    {
      this.mailbox := mailbox;
      this.responseType := responseType;
      this.lastResponseTime := lastResponseTime;
    }

    /** clean: coerce a bare address into a Mailbox in place, then check. */
    method Clean() returns (r: Outcome)
      modifies this
      ensures (State(), r) == CleanAttendee(old(State()))
    {
      if mailbox.Address? {
        var m := AddressMailbox(mailbox.address);
        r := CleanMailbox(m);
        if r.Fail? {
          return;
        }
        mailbox := Record(m);
      }
      r := CheckAttendee(State());
    }

    /** to_xml: clean (which may update the mailbox slot), then build the element. */
    method ToXml() returns (r: Result<Element>)
      modifies this
      ensures State() == CleanAttendee(old(State())).0
      ensures r == EncodeAttendee(old(State()))
    {
      var outcome := Clean();
      if outcome.Fail? {
        return Failure(outcome.error);
      }
      var attendee := new XmlNode(RequestTag(AttendeeClass));
      var me := MailboxToXml(mailbox.mailbox);
      if me.Failure? {
        return Failure(me.error);
      }
      ghost var first := [me.value, TextElement("ResponseType", responseType.value)];
      attendee.Append(me.value);
      attendee.Append(TextElement("ResponseType", responseType.value));
      assert attendee.Value() == Element(Expand(RequestTag(AttendeeClass)), [], None, first);
      if lastResponseTime.Some? {
        attendee.Append(TextElement("LastResponseTime", lastResponseTime.value));
        assert attendee.Value().children ==
          first + [TextElement("LastResponseTime", lastResponseTime.value)];
      } else {
        assert first + [] == first;
      }
      r := Ok(attendee.Value());
    }
  }

  /** Attendee(...): assign the slots, then clean; the object is discarded when clean raises. */
  method NewAttendee(mailbox: MailboxArg, responseType: Option<string>, lastResponseTime: Option<string>)
    returns (a: Attendee, r: Outcome)
    ensures fresh(a)
    ensures (a.State(), r) == CleanAttendee(AttendeeState(mailbox, responseType, lastResponseTime))
  {
    a := new Attendee(mailbox, responseType, lastResponseTime);
    r := a.Clean();
  }

  /** The attendee element after `Mailbox.from_xml(elem=elem.find(...))`: its Mailbox child as that call left it. */
  function AfterMailboxArg(e: Element): (r: Element)
    ensures r.tag == e.tag && r.attrs == e.attrs && r.text == e.text
  {
    match FindChild(e.children, ResponseTag(MailboxClass))
    case None => e
    case Some(me) => e.(children := ReplaceFirst(e.children, ResponseTag(MailboxClass), MailboxAfterDecode(PlainMailbox, me)))
  }

  /**
   * The node Attendee.from_xml leaves behind: cleared on success; on a
   * failure after the tag check, its Mailbox child is left as
   * Mailbox.from_xml left it (cleared, or with its ItemId child cleared).
   */
  function AttendeeAfterDecode(e: Element): (r: Element)
    ensures r.tag == e.tag
  {
    if e.tag != ResponseTag(AttendeeClass) then e
    else if DecodeAttendee(e).Ok? then Emptied(e)
    else AfterMailboxArg(e)
  }

  /** `Mailbox.from_xml(elem=elem.find(Mailbox.response_tag()))`, with what that call does to the child it finds. */
  method ReadMailboxChild(elem: XmlNode) returns (r: Result<MailboxArg>)
    modifies elem
    ensures r == MailboxArgOf(old(elem.Value()))
    ensures elem.Value() == AfterMailboxArg(old(elem.Value()))
  {
    var found := FindChild(elem.children, ResponseTag(MailboxClass));
    if found.None? {
      return Ok(NoMailbox);
    }
    var child := new XmlNode.Of(found.value);
    var decoded := MailboxFromXml(PlainMailbox, child);
    elem.ReplaceChild(ResponseTag(MailboxClass), child.Value());
    if decoded.value.Failure? {
      return Failure(decoded.value.error);
    }
    r := Ok(Record(decoded.value.value));
  }

  /**
   * from_xml: None for a missing element; otherwise check the tag, read
   * LastResponseTime, decode the Mailbox child (which clears it), read
   * ResponseType, construct (which cleans), and clear the node.
   */
  method AttendeeFromXml(elem: XmlNode?) returns (r: Option<Result<Attendee>>)
    modifies elem
    ensures elem == null ==> r == None
    ensures elem != null ==> r.Some? && (r.value.Ok? <==> DecodeAttendee(old(elem.Value())).Ok?)
    ensures elem != null && r.value.Ok? ==>
      fresh(r.value.value) && r.value.value.State() == DecodeAttendee(old(elem.Value())).value
    ensures elem != null && r.value.Failure? ==> r.value.error == DecodeAttendee(old(elem.Value())).error
    ensures elem != null ==> elem.Value() == AttendeeAfterDecode(old(elem.Value()))
  {
    if elem == null {
      return None;
    }
    if elem.tag != ResponseTag(AttendeeClass) {
      return Some(Failure(AssertionError));
    }
    ghost var e := elem.Value();
    var lastResponseTime := ChildText(elem.Value(), Clark(TNS, "LastResponseTime"));
    var mailbox := ReadMailboxChild(elem);
    ResponseTypeAfterMailboxArg(e);
    if mailbox.Failure? {
      return Some(Failure(mailbox.error));
    }
    var responseType := match ChildText(elem.Value(), Clark(TNS, "ResponseType"))
      case None => Some("Unknown")
      case Some(rt) => Some(rt);
    var a, outcome := NewAttendee(mailbox.value, responseType, lastResponseTime);
    if outcome.Fail? {
      return Some(Failure(outcome.error));
    }
    elem.Clear();
    r := Some(Ok(a));
  }

  /** Decoding the Mailbox child in place does not change what ResponseType reads. */
  lemma ResponseTypeAfterMailboxArg(e: Element)
    ensures ChildText(AfterMailboxArg(e), Clark(TNS, "ResponseType")) == ChildText(e, Clark(TNS, "ResponseType"))
  {
    var t := ResponseTag(MailboxClass);
    var rt := Clark(TNS, "ResponseType");
    assert t == Clark(TNS, "Mailbox");
    ClarkInjective(TNS, "Mailbox", "ResponseType");
    assert rt != t;
    var found := FindChild(e.children, t);
    if found.None? {
      assert AfterMailboxArg(e) == e;
    } else {
      var repl := MailboxAfterDecode(PlainMailbox, found.value);
      assert AfterMailboxArg(e) == e.(children := ReplaceFirst(e.children, t, repl));
      ChildTextAfterReplaceFirst(e, t, repl, rt);
    }
  }

  /**
   * An Attendee element with a valid mailbox and an unknown ResponseType:
   * from_xml raises AssertionError, yet the Mailbox child has already
   * been cleared.
   */
  lemma BadResponseTypeStillClearsMailbox(m: Mailbox, responseType: string)
    requires m.kind == PlainMailbox && CleanMailbox(m) == Pass && Normalised(m)
    requires responseType != "" && responseType !in RESPONSE_TYPES
    ensures EncodeMailbox(m).Ok?
    ensures var me := EncodeMailbox(m).value;
      var e := Element(ResponseTag(AttendeeClass), [], None, [me, TextElement("ResponseType", responseType)]);
      && DecodeAttendee(e) == Failure(AssertionError)
      && AttendeeAfterDecode(e).children == [Emptied(me), TextElement("ResponseType", responseType)]
  {
    MailboxRoundTrip(m);
    var me := EncodeMailbox(m).value;
    RequestTagExpandsToResponseTag(MailboxClass);
    var rtChild := TextElement("ResponseType", responseType);
    var kids := [me, rtChild];
    var e := Element(ResponseTag(AttendeeClass), [], None, kids);
    AttendeeChildLookup(ResponseTag(AttendeeClass), me, responseType, None);
    assert kids + [] == kids;
    assert MailboxArgOf(e) == Ok(Record(m));
    assert ResponseTypeArg(e) == Some(responseType);
    var s := AttendeeState(Record(m), Some(responseType), ChildText(e, Clark(TNS, "LastResponseTime")));
    assert CleanAttendee(s).1 == Fail(AssertionError);
    assert DecodeAttendee(e) == Failure(AssertionError);
    assert MailboxAfterDecode(PlainMailbox, me) == Emptied(me);
    assert FirstIndex(kids, ResponseTag(MailboxClass)) == 0;
    assert AfterMailboxArg(e).children == kids[0 := Emptied(me)];
  }

  /** Reading an attendee element whose children hold the slots of s. */
  lemma DecodeAttendeeOf(e: Element, me: Element, s: AttendeeState)
    requires s.mailbox.Record? && s.responseType.Some? && s.responseType.value in RESPONSE_TYPES
    requires e.tag == ResponseTag(AttendeeClass)
    requires FindChild(e.children, ResponseTag(MailboxClass)) == Some(me)
    requires DecodeMailbox(PlainMailbox, me) == Ok(s.mailbox.mailbox)
    requires ChildText(e, Clark(TNS, "ResponseType")) == s.responseType
    requires ChildText(e, Clark(TNS, "LastResponseTime")) == s.lastResponseTime
    ensures DecodeAttendee(e) == Ok(s)
  {
  }

  /** A clean Attendee with a round-tripping Mailbox survives to_xml and from_xml unchanged. */
  lemma AttendeeRoundTrip(s: AttendeeState)
    requires s.mailbox.Record? && s.mailbox.mailbox.kind == PlainMailbox
    requires CleanMailbox(s.mailbox.mailbox) == Pass && Normalised(s.mailbox.mailbox)
    requires s.responseType.Some? && s.responseType.value in RESPONSE_TYPES
    requires s.lastResponseTime.Some? ==> s.lastResponseTime.value != ""
    ensures EncodeAttendee(s).Ok?
    ensures DecodeAttendee(EncodeAttendee(s).value) == Ok(s)
  {
    var m := s.mailbox.mailbox;
    MailboxRoundTrip(m);
    var me := EncodeMailbox(m).value;
    AttendeeEncoded(s, me);
    var e := EncodeAttendee(s).value;
    RequestTagExpandsToResponseTag(AttendeeClass);
    RequestTagExpandsToResponseTag(MailboxClass);
    assert s.responseType.value != "";
    AttendeeChildLookup(e.tag, me, s.responseType.value, s.lastResponseTime);
    DecodeAttendeeOf(e, me, s);
  }

  /** A clean Attendee encodes as its mailbox, its response type and, if set, its response time. */
  lemma AttendeeEncoded(s: AttendeeState, me: Element)
    requires s.mailbox.Record? && CleanMailbox(s.mailbox.mailbox) == Pass && EncodeMailbox(s.mailbox.mailbox) == Ok(me)
    requires s.responseType.Some? && s.responseType.value in RESPONSE_TYPES
    ensures EncodeAttendee(s) == Ok(Element(Expand(RequestTag(AttendeeClass)), [], None,
      [me, TextElement("ResponseType", s.responseType.value)]
      + (if s.lastResponseTime.Some? then [TextElement("LastResponseTime", s.lastResponseTime.value)] else [])))
  {
    assert CleanAttendee(s) == (s, Pass);
  }

  /** In an encoded Attendee, the mailbox and both text children are found again. */
  lemma AttendeeChildLookup(tag: string, me: Element, rt: string, lrt: Option<string>)
    requires me.tag == Clark(TNS, "Mailbox") && rt != "" && (lrt.Some? ==> lrt.value != "")
    ensures var first := [me, TextElement("ResponseType", rt)];
      var rest := if lrt.Some? then [TextElement("LastResponseTime", lrt.value)] else [];
      var e := Element(tag, [], None, first + rest);
      && FindChild(e.children, Clark(TNS, "Mailbox")) == Some(me)
      && ChildText(e, Clark(TNS, "ResponseType")) == Some(rt)
      && ChildText(e, Clark(TNS, "LastResponseTime")) == lrt
  {
    var first := [me, TextElement("ResponseType", rt)];
    var rest := if lrt.Some? then [TextElement("LastResponseTime", lrt.value)] else [];
    ClarkInjective(TNS, "Mailbox", "ResponseType");
    ClarkInjective(TNS, "Mailbox", "LastResponseTime");
    ClarkInjective(TNS, "ResponseType", "LastResponseTime");
    FindChildConcat(first, rest, Clark(TNS, "Mailbox"));
    FindChildConcat(first, rest, Clark(TNS, "ResponseType"));
    FindChildConcat(first, rest, Clark(TNS, "LastResponseTime"));
  }

  /** Attendee.__hash__ is its mailbox's hash, so an Attendee equals its own Mailbox. */
  function AttendeeKey(s: AttendeeState): (k: IdentityKey)
    requires s.mailbox.Record? && (s.mailbox.mailbox.itemId.Some? || s.mailbox.mailbox.emailAddress.Some?)
    ensures k == MailboxKey(s.mailbox.mailbox)
  {
    MailboxKey(s.mailbox.mailbox)
  }

  /** Attendee.__hash__ as written, `hash(self.mailbox)`, for a mailbox slot holding a Mailbox. */
  function AttendeeHash(s: AttendeeState): Result<IdentityKey>
    requires s.mailbox.Record?
  {
    MailboxHash(s.mailbox.mailbox)
  }

  /** As written, an attendee whose mailbox has an item id cannot be hashed: TypeError. */
  lemma AttendeeHashRaisesWithItemId(s: AttendeeState)
    requires s.mailbox.Record? && s.mailbox.mailbox.itemId.Some?
    ensures AttendeeHash(s) == Failure(TypeError)
  {
    MailboxHashCases(s.mailbox.mailbox);
  }

  /** The attendee key ignores response type and time, and after clean a bare address keys by its lower case. */
  lemma AttendeeKeyFromAddress(s: AttendeeState, responseType: Option<string>, lastResponseTime: Option<string>)
    requires s.mailbox.Address? && CleanAttendee(s).1 == Pass
    ensures CleanAttendee(s).0.mailbox.Record?
    ensures AttendeeKey(CleanAttendee(s).0) == ByEmail(Lower(s.mailbox.address))
    ensures AttendeeKey(CleanAttendee(s).0.(responseType := responseType, lastResponseTime := lastResponseTime))
         == AttendeeKey(CleanAttendee(s).0)
  {
  }
}
