# exchangelib core, modelled in Dafny

This project models the core of exchangelib, a Python client for Microsoft
Exchange Web Services (EWS), and proves properties of that model. It covers
four parts:

- **The element classes of `properties.py`**:
  - request and response tags, and the class-level `FIELDS` registry with its
    lazily built name cache;
  - the `Subject`/`Location` length validators;
  - `MessageHeader` and the identity records `ItemId`, `ParentItemId` and
    `RootItemId`;
  - `Mailbox` with its subclasses `RoomList` and `Room`, and `Attendee`.

  For each class the model gives `to_xml` and `from_xml` and the `clean`
  the class defines (MessageHeader defines none). It also gives `__eq__` and
  `__hash__` as Python 3 resolves them along the class hierarchy.
- **Auth-scheme negotiation in `transport.py`**:
  - the `_tokenize` character loop over `WWW-Authenticate` values;
  - `get_auth_method_from_response`, which prefers digest, then NTLM, then
    basic;
  - `get_service_authtype`, which posts a dummy request for every API version
    and retries after connection errors while the retry policy allows;
  - `get_auth_instance`, `AUTH_TYPE_MAP` and `CREDENTIALS_REQUIRED`.
- **Three EWS services**: `GetFolder`, `SendItem` and `EmptyFolder`. The model
  covers their argument checks, their request payloads and, for `GetFolder`,
  how returned elements are paired with the requested folders.

XML is modelled as an element value: a tag in Clark notation (`{uri}local`),
an ordered list of attributes, optional text and a sequence of children. An
`XmlNode` class stands for the mutable lxml node that `to_xml` builds and
`from_xml` clears. `create_element`'s `t:`/`m:` prefixes expand to the types
(TNS) and messages (MNS) namespaces.

Python errors become `Result`/`Outcome` values carrying the exception class
(`ValueError`, `AttributeError`, `AssertionError`, `KeyError`, `IndexError`,
`UnauthorizedError`, `TransportError`). Python `assert` statements are
modelled the same way, as `AssertionError` results.

Modules, one file each:

| file | module | contents |
|---|---|---|
| `common.dfy` | `Common` | option and result types, errors, ASCII lower-casing |
| `xml.dfy` | `Xml` | elements and `XmlNode` |
| `properties.dfy` | `Properties` | tags, validators, `FIELDS` registry, `MessageHeader`, `ItemId` family |
| `mailboxes.dfy` | `Mailboxes` | `Mailbox`, `RoomList`, `Room`, `Attendee` |
| `transport.dfy` | `Transport` | tokenizer, auth-type choice, auth map |
| `probe.dfy` | `AuthProbe` | `get_service_authtype` |
| `get_folder.dfy` | `GetFolderService` | `GetFolder` |
| `send_item.dfy` | `SendItemService` | `SendItem` |
| `empty_folder.dfy` | `EmptyFolderService` | `EmptyFolder` |

How the `FIELDS` registry is modelled:

- `get_field_by_fieldname`, `add_field` and `remove_field` are classmethods
  that read and write class attributes. `Properties.FieldRegistry` holds,
  for each class of the core's hierarchy, the `FIELDS` and `_fields_map` in
  its own `__dict__`.
- Reading an attribute (and `hasattr`) walks `Properties.Mro`, the class's
  `__mro__`. Assigning `cls.X` writes cls's own dictionary, and `delattr`
  removes only cls's own entry.
- As written, a cache held by a base class is found by `hasattr` on a
  subclass, and `add_field` on a base class does not drop a subclass's own
  cache (see Findings). The corrected registry, `Properties.FixedFieldByName`
  and its siblings, is proved to keep every cache current.

How from_xml treats nested nodes: `elem.find(...)` hands the child node
itself to the nested `from_xml`, which clears it on success. The model
copies the found child into a fresh `XmlNode`, lets the nested `from_xml`
change it, and writes it back in the parent's place of that child
(`Xml.XmlNode.ReplaceChild`). So a failing `from_xml` leaves its node with
the children that the nested calls already cleared.

How `get_service_authtype` is modelled:

- Everything the probe cannot compute itself is part of an environment
  value `Env`:
  - the API versions from `supported_api_versions()`;
  - the outcome of the n-th POST (a reply with status and headers, or a
    connection error);
  - the retry policy's `may_retry_on_error` decision for the k-th retry, and
    the wait it asks for;
  - the dummy request built for a version hint.
- `AuthProbe.Probe` is a reference definition of the probe as a run: a result
  plus a trace of events (hint set, POST, back-off).
- `AuthProbe.Protocol.GetServiceAuthtype` mirrors the source's nested loops.
  It is proved to produce exactly that run and to leave the last version
  tried as `api_version_hint`.

## Model

| member | source | states |
|---|---|---|
| Common.Lower | exchangelib/transport.py:136-138 | `str.lower()` on ASCII keeps the length and maps each character on its own |
| Common.LowerIdempotent | exchangelib/properties.py:294-298 | lower-casing an address twice is lower-casing it once, so a lowered email keys like the original |
| Xml.ExpandPrefixed | exchangelib/properties.py:101-110 | a `t:` or `m:` request name expands to the `{TNS}` or `{MNS}` response name with the same local part |
| Xml.GetAttr | exchangelib/properties.py:209 | `elem.get(name)` is None exactly when no attribute has that name, otherwise the value of one named so |
| Xml.SetAttr | exchangelib/properties.py:200-201 | after `elem.set(name, v)` the name reads v and every other attribute reads as before |
| Xml.SetTwoAttrs | exchangelib/properties.py:200-201 | two `set` calls with distinct names on a fresh element leave both attributes in call order |
| Xml.FindChild | exchangelib/properties.py:289 | `elem.find(tag)` is None exactly when no child has that tag, otherwise a child with that tag |
| Xml.FirstIndex | exchangelib/properties.py:289 | the position of the child `find` returns: that child is there and no earlier child has the tag |
| Xml.FindAfterReplaceFirst | exchangelib/properties.py:338-339 | once the child `find` returned has been changed in place, keeping its tag, finding any other tag gives the same child as before |
| Xml.XmlNode.ReplaceChild | exchangelib/properties.py:289 | a from_xml call on the child `find` returned changes the parent at that child's position only, and nothing else of the parent |
| Xml.FindChildConcat | exchangelib/properties.py:289 | searching a concatenation of children finds the first part's match first |
| Xml.TextElement | exchangelib/properties.py:270-275 | `add_xml_child(e, 't:X', s)` adds a `{TNS}X` child holding s |
| Xml.XmlNode.constructor | exchangelib/properties.py:198 | `create_element(name)` gives an empty node with the expanded tag |
| Xml.XmlNode.Set | exchangelib/properties.py:200-201 | `elem.set` changes only the attributes, as SetAttr describes |
| Xml.XmlNode.SetText | exchangelib/properties.py:162 | `set_xml_value` with a string changes only the text |
| Xml.XmlNode.Append | exchangelib/services/get_folder.py:51-53 | `append` adds the child after the existing ones and changes nothing else |
| Xml.XmlNode.Clear | exchangelib/properties.py:210 | `elem.clear()` leaves the tag only |
| Properties.RequestTag | exchangelib/properties.py:101-106 | the request tag is `t:` for TNS classes or `m:` for MNS classes, followed by ELEMENT_NAME |
| Properties.RequestTagExpandsToResponseTag | exchangelib/properties.py:101-110 | an element built with a class's request tag has that class's response tag exactly when the class is not RoomList |
| Properties.CleanBoundedText | exchangelib/properties.py:43-58 | Subject/Location.clean raise ValueError if and only if the length exceeds 255 |
| Properties.SliceBound | exchangelib/properties.py:121 | a slice index is clamped as Python does, negative indices counting from the end |
| Properties.InsertAtPlacesField | exchangelib/properties.py:118-121 | add_field puts the field at the clamped index, with the old fields before and after it in order |
| Properties.WithoutCounts | exchangelib/properties.py:127-130 | remove_field drops every occurrence of the field and nothing else (as a multiset) |
| Properties.WithoutConcat | exchangelib/properties.py:127-130 | remove_field keeps the order of what remains: it distributes over concatenation |
| Properties.WithoutUndoesInsert | exchangelib/properties.py:118-134 | removing a field undoes adding it, at any index |
| Properties.NameIndexLookup | exchangelib/properties.py:112-116 | the name cache knows exactly the names in FIELDS and maps each to the last field of that name |
| Properties.NameIndexValuesInFields | exchangelib/properties.py:112-116 | every field the cache returns is in FIELDS |
| Properties.Mro | exchangelib/properties.py:350-362 | `cls.__mro__` (without `object`): the class first, EWSElement last, the class not repeated; ParentItemId and RootItemId (lines 220, 228) inherit through ItemId, RoomList and Room through Mailbox (line 239) |
| Properties.InheritedAt | exchangelib/properties.py:114 | reading a class attribute gives the value held by the first class on the MRO whose own `__dict__` holds one |
| Properties.InheritedNone | exchangelib/properties.py:114 | `hasattr` is False when no class on the MRO holds the attribute in its own `__dict__` (InheritedAt gives the converse) |
| Properties.InheritedAgrees | exchangelib/properties.py:114 | attribute lookup depends only on the own dictionaries of the classes on the MRO |
| Properties.LookUp | exchangelib/properties.py:116 | `cls._fields_map[fieldname]` returns the mapped field when the name is a key, and raises KeyError exactly when it is not |
| Properties.FieldRegistry.constructor | exchangelib/properties.py:83 | at import EWSElement holds `FIELDS = tuple()`, every subclass inherits it, and no class holds a `_fields_map` |
| Properties.FieldRegistry.GetFieldByFieldname | exchangelib/properties.py:112-116 | when no class on cls's MRO holds a cache, builds one from the FIELDS cls reads and stores it on cls; otherwise keeps the cache in force, even one inherited from a base class; returns the lookup in that cache, or KeyError |
| Properties.FieldRegistry.AddField | exchangelib/properties.py:118-125 | cls's own FIELDS becomes `FIELDS[0:idx] + (field,) + FIELDS[idx:]` of the FIELDS cls reads; only cls's own cache is deleted, and a missing one is ignored |
| Properties.FieldRegistry.RemoveField | exchangelib/properties.py:127-134 | cls's own FIELDS becomes the FIELDS cls reads without the field; only cls's own cache is deleted, and a missing one is ignored |
| Properties.CacheAfterDelete | exchangelib/properties.py:122-125 | after `delattr(cls, '_fields_map')`, cls reads the cache held by the nearest class above it, if any |
| Properties.FreshCacheAfterChange | exchangelib/properties.py:118-134 | when no class above cls holds a cache, after add_field or remove_field cls reads the new FIELDS and its next lookup builds the cache from them |
| Properties.LookupAfterRemoveMissesField | exchangelib/properties.py:112-134 | when no class above cls holds a cache, after remove_field(f) no lookup on cls returns f |
| Properties.LookupAfterAppendFindsField | exchangelib/properties.py:112-125 | when no class above cls holds a cache, after add_field(f, idx) at or past the end, looking up f's name on cls returns f |
| Properties.InheritedCacheHidesAddedField | exchangelib/properties.py:112-125 | as written: after `Mailbox.get_field_by_fieldname`, `Room.add_field(f, 0)` gives Room the FIELDS `(f,)`, yet looking up f's name on Room raises KeyError, because `hasattr` finds Mailbox's cache |
| Properties.SubclassCacheMissesInheritedField | exchangelib/properties.py:112-125 | as written: after `ParentItemId.get_field_by_fieldname`, `ItemId.add_field(f, 0)` gives ParentItemId the FIELDS `(f,)`, yet looking up f's name on ParentItemId raises KeyError from its own stale cache |
| Properties.FixedRegistryKeepsCachesCurrent | exchangelib/properties.py:112-134 | corrected registry (a class reads only its own cache; a change drops the caches of the class and of every class below it): every operation keeps every cache equal to the name index of its class's FIELDS, and each lookup is the lookup in the index of the FIELDS the class reads |
| Properties.FixedRegistryFindsAddedField | exchangelib/properties.py:112-125 | in both scenarios above, the corrected registry returns f |
| Properties.MessageHeaderToXml | exchangelib/properties.py:157-163 | a missing name fails with TypeError, a missing value with ValueError; otherwise HeaderName attribute plus text |
| Properties.MessageHeaderFromXml | exchangelib/properties.py:165-172 | None gives None; a wrong tag fails with AssertionError; the node is cleared only when a header was built |
| Properties.MessageHeaderRoundTrip | exchangelib/properties.py:146-172 | a header with name and value survives to_xml then from_xml |
| Properties.OwnHashEntry | exchangelib/properties.py:136-140 | a class body that defines `__hash__` holds it; one that defines `__eq__` alone gets `__hash__ = None` (Python 3); a body that defines neither holds no entry |
| Properties.HashInForceCases | exchangelib/properties.py:213-217 | along the MRO, ItemId, ParentItemId and RootItemId are exactly the unhashable classes; Mailbox, RoomList and Room hash with Mailbox.__hash__ (line 294), Attendee with its own (line 345), EWSElement and MessageHeader with the slot-tuple hash (line 139) |
| Properties.MessageHeaderEqualityIsSlots | exchangelib/properties.py:136-140 | a header hashes as its slot tuple `(name, value)`, so `==` on headers holds exactly when name and value agree |
| Properties.ItemIdUnhashable | exchangelib/properties.py:213-217 | `hash()` of any ItemId, ParentItemId or RootItemId raises TypeError, since ItemId defines `__eq__` without `__hash__` |
| Properties.ItemIdEquals | exchangelib/properties.py:213-217 | `__eq__` is False against None, and otherwise True exactly when the two records agree except for their subclass |
| Properties.CleanItemIdFields | exchangelib/properties.py:190-194 | clean passes exactly when id and changekey are non-empty strings, else ValueError |
| Properties.NewItemId | exchangelib/properties.py:185-194 | construction succeeds if and only if both fields are non-empty strings, and keeps them |
| Properties.ItemIdEqualityIsIdentity | exchangelib/properties.py:213-217 | `__eq__` is an equivalence on id and changekey only: it ignores the subclass, compares exactly the (id, changekey) key the Mailbox hash evidently intends, and is False against None |
| Properties.ItemIdToXml | exchangelib/properties.py:196-202 | an invalid id fails with ValueError; otherwise the request tag with the Id then ChangeKey attributes (RootItemId's own names for RootItemId) |
| Properties.ItemIdFromXml | exchangelib/properties.py:204-211 | None gives None; tag check, then both attributes read and cleaned; node cleared on success |
| Properties.ItemIdRoundTrip | exchangelib/properties.py:175-236 | every valid ItemId, ParentItemId and RootItemId survives to_xml then from_xml unchanged |
| Mailboxes.CleanMailbox | exchangelib/properties.py:254-265 | passes exactly when mailbox_type is absent or one of the seven MAILBOX_TYPES and email or item id is present; AssertionError and AttributeError in exactly the other cases |
| Mailboxes.NewMailbox | exchangelib/properties.py:246-265 | construction succeeds exactly when clean passes, and keeps the fields |
| Mailboxes.MailboxToXml | exchangelib/properties.py:267-278 | clean first; then Name, EmailAddress, MailboxType children only for truthy fields, in that order, then the item id |
| Mailboxes.AddTextFields | exchangelib/properties.py:270-275 | the three guarded add_xml_child calls append exactly the truthy fields' children, in order |
| Mailboxes.ReadItemIdChild | exchangelib/properties.py:289 | `ItemId.from_xml(elem=elem.find(...))`: no item id for a missing child, else that child's decoding; a child that decodes is cleared inside its parent, one that does not is left as it was |
| Mailboxes.MailboxFromXml | exchangelib/properties.py:281-292 | None gives None; a wrong tag gives AssertionError; otherwise the decoded mailbox or the error of the ItemId or clean step; the node is cleared on success, and on failure it keeps everything except an ItemId child that was already decoded and cleared (Room.from_xml, lines 367-379: the fields come from the `{TNS}Id` child, whose absence gives AttributeError, and the cleared ItemId lies inside it) |
| Mailboxes.FailedDecodeClearsOnlyItemId | exchangelib/properties.py:281-292 | a failed Mailbox or RoomList decode keeps the tag, attributes, text and number of children, and the only child it may change is the first ItemId child, which is then empty |
| Mailboxes.BadTypeStillClearsItemId | exchangelib/properties.py:285-291 | a Mailbox element with a MailboxType outside MAILBOX_TYPES and a valid ItemId child raises AssertionError, yet its ItemId child has already been cleared |
| Mailboxes.MailboxChildLookup | exchangelib/properties.py:267-289 | each text field and the item id can be found again among the encoded children |
| Mailboxes.MailboxRoundTrip | exchangelib/properties.py:267-292 | a valid plain mailbox whose present strings are non-empty and whose item id is a plain ItemId survives to_xml then from_xml |
| Mailboxes.RoomListDoesNotRoundTrip | exchangelib/properties.py:350-359 | a RoomList encodes as `{MNS}RoomList` but is decoded only from `{TNS}Address`, so from_xml(to_xml(x)) fails |
| Mailboxes.CleanMailboxHasKey | exchangelib/properties.py:263-265 | every mailbox that passed clean has an item id or an email to hash |
| Mailboxes.MailboxKey | exchangelib/properties.py:294-298 | the intended hash identity: the item id's (id, changekey) exactly when an item id is present, else the lower-cased email |
| Mailboxes.MailboxEquals | exchangelib/properties.py:136-137 | `==` by the intended keys: two item ids compare by ItemId.__eq__, an item id never equals an email, and two emails compare after lower-casing |
| Mailboxes.MailboxHashCases | exchangelib/properties.py:294-298 | as written, `hash()` of a mailbox with an item id raises TypeError, of one with neither raises AttributeError, and of one keyed by its email agrees with MailboxKey |
| Mailboxes.MailboxEqCases | exchangelib/properties.py:136-137 | as written, `==` on mailboxes succeeds exactly when neither side has an item id and both have an email, and then agrees with MailboxEquals; an item id on the left raises TypeError |
| Mailboxes.ItemIdMailboxHashRaises | exchangelib/properties.py:294-298 | `Mailbox(email_address='a@x', item_id=ItemId('i', 'c'))` passes clean and equals itself by the intended key, yet `hash(m)` and `m == m` raise TypeError |
| Mailboxes.MailboxKeyStableUnderServerEdits | exchangelib/properties.py:294-298 | the intended key (see Findings) ignores name, mailbox type and subclass, ignores the email when an item id is present, and ignores email case |
| Mailboxes.MailboxEqualityByItemId | exchangelib/properties.py:294-298 | by the intended key (see Findings), a mailbox with an item id equals another exactly when that one has an item id equal to it |
| Mailboxes.CleanAttendeeEffect | exchangelib/properties.py:314-320 | clean replaces a non-empty address by `Mailbox(email_address=s)`, keeps the other slots, and passes exactly with a mailbox and one of the six RESPONSE_TYPES |
| Mailboxes.CleanAttendeeIdempotent | exchangelib/properties.py:314-320 | cleaning twice gives the same slots and outcome as cleaning once |
| Mailboxes.Attendee.constructor | exchangelib/properties.py:308-311 | the slots hold the given values |
| Mailboxes.Attendee.Clean | exchangelib/properties.py:314-320 | updates the mailbox slot in place and returns the outcome, as CleanAttendee describes |
| Mailboxes.Attendee.ToXml | exchangelib/properties.py:322-329 | cleans in place, then the mailbox, ResponseType and (if set) LastResponseTime children |
| Mailboxes.NewAttendee | exchangelib/properties.py:308-320 | a fresh attendee whose slots and outcome are those of cleaning the arguments |
| Mailboxes.ReadMailboxChild | exchangelib/properties.py:338 | `Mailbox.from_xml(elem=elem.find(...))`: no mailbox for a missing child, else that child's decoding, with the child left inside its parent as Mailbox.from_xml leaves it |
| Mailboxes.AttendeeFromXml | exchangelib/properties.py:332-343 | None gives None; a wrong tag gives AssertionError; otherwise the decoded attendee (a missing ResponseType read as 'Unknown') or the error of the Mailbox or clean step; the node is cleared on success, and on failure keeps everything except its Mailbox child, left as Mailbox.from_xml left it |
| Mailboxes.ResponseTypeAfterMailboxArg | exchangelib/properties.py:338-339 | decoding the Mailbox child in place does not change what the ResponseType read finds |
| Mailboxes.BadResponseTypeStillClearsMailbox | exchangelib/properties.py:336-343 | an Attendee element with a valid Mailbox child and a ResponseType outside RESPONSE_TYPES raises AssertionError, yet its Mailbox child has already been cleared |
| Mailboxes.DecodeAttendeeOf | exchangelib/properties.py:331-343 | an element with the attendee tag and matching children decodes to that attendee |
| Mailboxes.AttendeeRoundTrip | exchangelib/properties.py:322-343 | a valid attendee whose mailbox is a plain, normalised Mailbox (as MailboxRoundTrip requires) survives to_xml then from_xml |
| Mailboxes.AttendeeKey | exchangelib/properties.py:345-347 | by the intended key, an attendee hashes as its mailbox |
| Mailboxes.AttendeeHashRaisesWithItemId | exchangelib/properties.py:345-347 | as written, `hash()` of an attendee whose mailbox has an item id raises TypeError |
| Mailboxes.AttendeeKeyFromAddress | exchangelib/properties.py:314-316 | after clean, an attendee given an address keys by that address lower-cased, whatever its response type and time |
| Transport.AuthTypeNamesDistinct | exchangelib/transport.py:15-22 | the auth type constants are pairwise distinct |
| Transport.AuthTypeMap | exchangelib/transport.py:25-44 | NTLM, basic, digest and OAuth 2.0 have a handler; CBA and no-auth map to None; GSSAPI and SSPI are present exactly when their package imports |
| Transport.GetAuthInstanceCases | exchangelib/transport.py:50-65 | KeyError exactly for a missing optional package; None exactly for CBA and no-auth; GSSAPI built without arguments; every other handler with the kwargs |
| Transport.WordLen | exchangelib/transport.py:159-172 | the plain run at the front of the input: no space, comma or quote inside it, one of them right after it |
| Transport.CloseLen | exchangelib/transport.py:165-171 | the distance to the next double quote |
| Transport.Tokenize | exchangelib/transport.py:154-175 | the character loop computes the token list that Lex defines |
| Transport.ScanChar | exchangelib/transport.py:159-172 | one iteration of the loop (separator, quote or other character) keeps the loop invariant |
| Transport.PendingStart | exchangelib/transport.py:156-158 | the initial state of the loop is the start of Lex |
| Transport.ScannedAll | exchangelib/transport.py:173-175 | flushing the final partial token completes Lex |
| Transport.LexNoEmptyToken | exchangelib/transport.py:160-174 | the tokenizer never yields an empty token |
| Transport.LexKeepsCharacters | exchangelib/transport.py:154-175 | the concatenated tokens are the input with exactly the spaces and commas outside quotes removed |
| Transport.LexSkipsSeparators | exchangelib/transport.py:160-164 | spaces and commas outside quotes only separate tokens |
| Transport.LexSimpleWord | exchangelib/transport.py:160-172 | a plain run or one quoted string followed by a separator or the end is one token |
| Transport.LexQuotedParameter | exchangelib/transport.py:165-171 | a parameter with a quoted value, such as `realm="a, b"`, is one token; separators inside quotes stay in it and the closing quote ends it |
| Transport.LexJoin | exchangelib/transport.py:154-175 | tokenizing simple words joined by separators gives the words back |
| Transport.SchemeOf | exchangelib/transport.py:145-150 | picks the most secure of digest > ntlm > basic among whole tokens, None exactly when none is present |
| Transport.AuthFromHeadersFirstOffer | exchangelib/transport.py:135-151 | the first www-authenticate header (any case) offering a scheme decides; UnauthorizedError exactly when none does |
| Transport.AuthMethodOutcomes | exchangelib/transport.py:132-151 | status 200 gives no-auth whatever the headers; otherwise an offered scheme or UnauthorizedError |
| Transport.GetAuthMethodFromResponse | exchangelib/transport.py:128-151 | the header loop, with the realm logging left out, computes AuthMethodFromResponse |
| Transport.AsWrittenAgreesWithoutBareRealm | exchangelib/transport.py:139-142 | when no token starts with "realm" without an "=", the code as written agrees with the corrected loop |
| Transport.BareRealmRaisesIndexError | exchangelib/transport.py:139-142 | a header whose tokens are `basic`, `realm`, `=`, `"x"` raises IndexError as written, where basic is offered |
| Transport.BareRealmTokenFacts | exchangelib/transport.py:139-150 | in those tokens, `realm` has no value and basic is the scheme offered |
| Transport.BareRealmTokens | exchangelib/transport.py:138 | `Basic realm = "x"` lower-cased tokenizes to those tokens |
| Transport.AuthenticateHeaderName | exchangelib/transport.py:136 | `WWW-Authenticate` matches `www-authenticate` case-insensitively |
| Transport.NegotiateNtlmChoosesNtlm | exchangelib/transport.py:145-150 | a header offering `Negotiate, NTLM` selects NTLM |
| AuthProbe.PostAtStartsWithPost | exchangelib/transport.py:85-98 | every attempt for a version starts by POSTing that version's dummy request |
| AuthProbe.FromVersionHints | exchangelib/transport.py:81-82 | versions are tried in order from the given index, none skipped |
| AuthProbe.PostAtHints | exchangelib/transport.py:81-125 | after a POST for version vi, only later versions are set as hints, in order |
| AuthProbe.FromVersionCoherent | exchangelib/transport.py:81-114 | every POST carries the dummy request of the hint set last, and each back-off is followed by another POST |
| AuthProbe.PostAtCoherent | exchangelib/transport.py:85-114 | the same, from a POST on |
| AuthProbe.FromVersionOutcome | exchangelib/transport.py:85-125 | the run ends in an auth type from a 200/401 reply, a refused connection with no retry left, or the final TransportError |
| AuthProbe.PostAtOutcome | exchangelib/transport.py:85-124 | the same, from a POST on |
| AuthProbe.ConnectionOutcome | exchangelib/transport.py:103-115 | from a POST that meets a refused connection, the run meets Outcome: within the retry bound, an auth type only from a 200/401 reply, and any failure other than the final one is the TransportError of a refused connection with no retry left |
| AuthProbe.ReplyOutcome | exchangelib/transport.py:116-124 | from a POST that gets a reply, the run meets the same Outcome, whether the reply is of no use (status outside 200/401, or UnauthorizedError) and the next version is tried, or it gives the auth type |
| AuthProbe.FromVersionTransitions | exchangelib/transport.py:81-125 | from a version on, the run starts with that version's hint and follows the transition rules |
| AuthProbe.PostAtTransitions | exchangelib/transport.py:85-124 | from a POST on, the run follows the transition rules: a refused connection is followed by a back-off when retrying, a reply of no use by the next hint, a usable reply by nothing |
| AuthProbe.TransitionAt | exchangelib/transport.py:81-124 | the transition rules hold at every position of a trace that follows them, the POST there being POST number NumPosts of the events before it |
| AuthProbe.ProbeTransitions | exchangelib/transport.py:81-125 | in the whole probe every hint and back-off is followed by a POST, each POST by what its outcome allows, the first usable reply is the last event, and a non-empty run starts with a hint and ends with a POST |
| AuthProbe.FromVersionExhausts | exchangelib/transport.py:81-125 | "Failed to get auth type from service" is raised only after every remaining version was tried, unless a connection failure ended the run |
| AuthProbe.PostAtExhausts | exchangelib/transport.py:85-125 | the same, from a POST on |
| AuthProbe.ProbeProperties | exchangelib/transport.py:68-125 | one whole probe: hints are a prefix of the versions in order, POSTs match hints, the outcome is one of the allowed kinds, and exhaustion means every version was tried |
| AuthProbe.Protocol.constructor | exchangelib/transport.py:82 | a protocol starts without an API version hint |
| AuthProbe.Protocol.GetServiceAuthtype | exchangelib/transport.py:68-125 | the nested loops produce exactly the reference run, and the hint left behind is the last version tried |
| AuthProbe.PostDummy | exchangelib/transport.py:85-115 | the inner loop retries while allowed, keeps the hints, and either ends the probe or hands on the reply |
| AuthProbe.StartVersion | exchangelib/transport.py:81-83 | setting the hint starts the attempt for that version |
| AuthProbe.RetryStep | exchangelib/transport.py:103-114 | a permitted retry backs off, counts the retry and repeats the POST |
| AuthProbe.GiveUpStep | exchangelib/transport.py:115 | a refused retry ends the probe with the connection error's TransportError |
| AuthProbe.ReplyStep | exchangelib/transport.py:116-124 | a reply ends the probe or moves to the next version |
| GetFolderService.ErrorsToCatchInResponse | exchangelib/services/get_folder.py:12-14 | the base tuple, then ErrorFolderNotFound, ErrorNoPublicFolderReplicaAvailable, ErrorInvalidOperation in that order, and nothing else |
| GetFolderService.ElemsToObjs | exchangelib/services/get_folder.py:39-44 | one output per position of zip, so min of the lengths; errors yielded unchanged at their position; element i parsed with folder i |
| GetFolderService.ElemsToObjsConcat | exchangelib/services/get_folder.py:39-44 | pairing chunk by chunk equals pairing the whole when each chunk gets its number of elements back |
| GetFolderService.ElemsToObjsTruncates | exchangelib/services/get_folder.py:40 | surplus folders or elements are dropped without an error |
| GetFolderService.GetFolderPayloadReadBack | exchangelib/services/get_folder.py:46-54 | the payload's FolderShape and FolderIds children can both be found again |
| GetFolderService.GetFolder.constructor | exchangelib/services/get_folder.py:16-18 | a new service has no folders |
| GetFolderService.GetFolder.Call | exchangelib/services/get_folder.py:20-37 | stores the folders once and pairs the fetched elements with that same list |
| GetFolderService.GetFolder.GetPayload | exchangelib/services/get_folder.py:46-54 | an `m:GetFolder` element with exactly two children, FolderShape then FolderIds |
| SendItemService.Call | exchangelib/services/send_item.py:10-16 | ValueError exactly for a truthy saved_item_folder that is no folder, folder id or distinguished folder id; otherwise the arguments are forwarded |
| SendItemService.CallWithoutFolder | exchangelib/services/send_item.py:12 | without a folder, call never refuses |
| SendItemService.BoolText | exchangelib/services/send_item.py:21 | the attribute text is "true" exactly for a truthy value |
| SendItemService.SendItemPayloadReadBack | exchangelib/services/send_item.py:18-29 | SaveItemToFolder reads "true" exactly when a folder is given; the item ids come first; the SavedItemFolderId child, holding the folder, is there exactly then |
| SendItemService.PooledPayloadKeepsFolder | exchangelib/services/send_item.py:14-21 | every chunk's payload carries the caller's saved_item_folder decision |
| SendItemService.GetPayload | exchangelib/services/send_item.py:18-29 | the built element is `m:SendItem` with its attribute, the item ids and, for a truthy folder only, the wrapped folder |
| EmptyFolderService.Call | exchangelib/services/empty_folder.py:12-15 | forwards the folders as items and both options unchanged |
| EmptyFolderService.EmptyFolderPayloadReadBack | exchangelib/services/empty_folder.py:17-27 | DeleteType reads back verbatim, DeleteSubFolders reads "true" exactly when set, and FolderIds is the child found |
| EmptyFolderService.PooledPayloadKeepsOptions | exchangelib/services/empty_folder.py:12-27 | every chunk's payload carries the caller's options |
| EmptyFolderService.GetPayload | exchangelib/services/empty_folder.py:17-27 | an `m:EmptyFolder` element with DeleteType then DeleteSubFolders and one FolderIds child |

## Left out

- HTTP and sessions (`raw_session`, `post`, timeouts, `DummyResponse`): each POST is an environment outcome, either a reply with status and headers or a connection error.
- Time and the retry policy: `time.monotonic`, the sleeping in `_back_off_if_needed`, `back_off_until` and how `may_retry_on_error` decides are not modelled. The decision is an environment predicate on the retry count, and `back_off` is a recorded event with the wait the policy gives.
- AuthProbe.Probe: the retry count is bounded; the model assumes the retry policy has stopped allowing retries by some count. TLS errors and the shared cooldown between threads are not modelled.
- AuthProbe.Protocol.GetServiceAuthtype: the model uses the corrected header loop (see Findings), not the one that raises IndexError.
- Logging, including the realm value the header loop logs.
- The handler classes of `requests`, `requests_ntlm`, `requests_oauthlib`, `requests_gssapi` and `requests_negotiate_sspi`: only which type maps to which handler, and with what arguments, is kept.
- Common.Lower: lower-cases ASCII letters only; Python's full Unicode case mapping is not modelled.
- lxml and the helpers of `util.py` (`create_element`, `add_xml_child`, `set_xml_value`, `get_xml_attr`) are replaced by the element type and `XmlNode`. The helpers are assumed to behave as follows:
  - `get_xml_attr` reads an empty text as None;
  - `set_xml_value` with a string sets the node's text.
- The memory effects of `elem.clear()` are not modelled.
- Nested lxml nodes are values inside their parent. Writing a changed child back into the parent stands for the node being shared. Other aliasing of lxml nodes, such as a node kept by the caller after a parent is cleared, is not modelled.
- Properties.FieldRegistry: covers the classes of the core's hierarchy (EWSElement, ItemId, ParentItemId, RootItemId, Mailbox, RoomList, Room, Attendee, MessageHeader). Other subclasses elsewhere in the library are not modelled.
- Mailboxes.AttendeeRoundTrip: the last response time stays as its XML text. `EWSDateTime` parsing and its `isinstance` check are not modelled. The mailbox must meet MailboxRoundTrip's premise: plain, with non-empty strings and a plain ItemId.
- Mailboxes.MailboxRoundTrip: holds for plain mailboxes whose present strings are non-empty and whose item id, if any, is a plain ItemId. `to_xml` drops an empty string, so such a mailbox comes back with None.
  - `clean` accepts a ParentItemId or RootItemId as the item id. `to_xml` writes it as `{MNS}ParentItemId` or `{MNS}RootItemId`, but `from_xml` looks only for `{TNS}ItemId`, so the mailbox comes back without an item id.
  - A Room does not round-trip either, since it is decoded from its `{TNS}Id` child.
- Python `isinstance` checks on string fields are assumed to pass. An absent value is modelled as None.
- SendItemService.Call: the Python truth value and class of `saved_item_folder` are a flag and a kind.
- The hash numerics of `__hash__` are not modelled. A hash is modelled as the value it hashes, and equality by hashes as equality of those values, so hash collisions are not modelled.
- ItemIdEqualityIsIdentity: its (id, changekey) key is the one the Mailbox hash evidently intends. As written, ItemId has no hash at all (ItemIdUnhashable; see Findings).
- Mailboxes.AttendeeHash: covers a mailbox slot holding a Mailbox, which every attendee that passed clean has. The hashes of a bare address string and of None are not modelled.
- `Content`/`MimeContent` base64 helpers are not modelled; they are thin wrappers over a library.
- `services/common.py` is not part of this model. Its pieces become parameters, already bound to the account's version:
  - the chunking engine (`_chunked_get_elements`, `_pool_requests`);
  - `parse_folder_elem`, `create_shape_element`, `create_folder_ids_element` and `create_item_ids_element`.
- GetFolderService.ElemsToObjs: returns the whole list rather than a lazy generator.
- `autodiscover/protocol.py` is not part of this model: it is configuration and I/O plumbing over `get_autodiscover_authtype`, which is not shown.
- `services/delete_attachment.py` is not part of this model: it is a two-line wrapper over `services/common.py` helpers.

## Findings

| source | as written | input that shows it | evidently intended | confidence | as-written member | corrected member |
|---|---|---|---|---|---|---|
| exchangelib/transport.py:139-142 | every token that starts with `realm` is split on `=` and element 1 taken, to be logged | header `WWW-Authenticate: Basic realm = "x"` (a space around `=` is allowed by section 2.1 of RFC 7235), whose tokens are `basic`, `realm`, `=`, `"x"`: `"realm".split("=")[1]` raises IndexError | the realm is only logged, so the scheme offered (basic) should be returned | not executed | Transport.BareRealmRaisesIndexError | Transport.AuthFromHeadersFirstOffer |
| exchangelib/properties.py:114 | `hasattr(cls, '_fields_map')` also finds a cache inherited from a base class, and `delattr` at lines 123 and 132 removes only cls's own cache | `Mailbox.get_field_by_fieldname(...)`, then `Room.add_field(f, 0)`, then `Room.get_field_by_fieldname(f.name)` raises KeyError although Room's FIELDS is `(f,)`; likewise `ItemId.add_field` leaves `ParentItemId`'s cache stale | each class's lookup sees its own current FIELDS, as the comment "invalidate the fieldname cache" says | medium, not executed | Properties.InheritedCacheHidesAddedField | Properties.FixedRegistryFindsAddedField |
| exchangelib/properties.py:213 | ItemId defines `__eq__` but no `__hash__`, so Python 3 sets `ItemId.__hash__` to None. `Mailbox.__hash__` (lines 296-297) calls `hash(self.item_id)`, and `EWSElement.__eq__` (line 137) and `Attendee.__hash__` (line 347) go through it. The source is Python 3: it uses `abc.abstractclassmethod` (line 97) and an f-string (transport.py:47) | `m = Mailbox(email_address='a@x', item_id=ItemId('i', 'c'))`: `hash(m)` and `m == m` raise `TypeError: unhashable type: 'ItemId'` | the comment at line 295: a mailbox hashes on its item id, (id, changekey), when it has one | high, not executed | Mailboxes.ItemIdMailboxHashRaises | Mailboxes.MailboxEqualityByItemId |
