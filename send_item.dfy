/**
 * The SendItem service: the check on saved_item_folder and the request
 * payload. create_item_ids_element, set_xml_value and _pool_requests
 * (exchangelib/services/common.py and util.py) are not part of this
 * model; the XML they build is given as parameters, already bound to the
 * account's version.
 */
module SendItemService {
  import opened Common
  import opened Xml

  const SERVICE_NAME: string := "SendItem"

  /** SendItem responses carry no elements. */
  const RETURNS_ELEMENTS: bool := false

  /** What kind of Python value saved_item_folder is. */
  datatype FolderKind = BaseFolder | FolderId | DistinguishedFolderId | NotAFolder

  /** saved_item_folder: its kind and its Python truth value (None is a falsy NotAFolder). */
  datatype SavedItemFolder = SavedItemFolder(kind: FolderKind, truthy: bool)

  const NO_FOLDER: SavedItemFolder := SavedItemFolder(NotAFolder, false)

  /** What call hands to _pool_requests besides get_payload. */
  datatype SendItemRequest<I> = SendItemRequest(items: seq<I>, savedItemFolder: SavedItemFolder)

  /**
   * call: a truthy saved_item_folder must be a folder, a folder id or a
   * distinguished folder id; a falsy one is never checked. The arguments
   * are forwarded unchanged.
   */
  function Call<I>(items: seq<I>, savedItemFolder: SavedItemFolder): (r: Result<SendItemRequest<I>>)
    ensures r.Failure? <==> savedItemFolder.truthy && savedItemFolder.kind == NotAFolder
    ensures r.Failure? ==> r.error == ValueError
    ensures r.Ok? ==> r.value.items == items && r.value.savedItemFolder == savedItemFolder
  {
    if savedItemFolder.truthy && !(savedItemFolder.kind.BaseFolder? || savedItemFolder.kind.FolderId? || savedItemFolder.kind.DistinguishedFolderId?) then
      Failure(ValueError)
    else
      Ok(SendItemRequest(items, savedItemFolder))
  }

  /** Without a folder to save into, call never refuses. */
  lemma CallWithoutFolder<I>(items: seq<I>)
    ensures Call(items, NO_FOLDER) == Ok(SendItemRequest(items, NO_FOLDER))
  {
  }

  /** "true" or "false", as the payload writes a Python truth value. */
  function BoolText(b: bool): (r: string)
    ensures r == "true" <==> b
  {
    if b then "true" else "false"
  }

  const SAVED_ITEM_FOLDER_ID: string := "SavedItemFolderId"
  const SAVED_ITEM_FOLDER_ID_TAG: string := Clark(MNS, SAVED_ITEM_FOLDER_ID)

  /**
   * The SendItem payload: SaveItemToFolder tells whether a folder is
   * given; the item ids come first, then, only for a truthy folder, an
   * m:SavedItemFolderId element holding the folder's XML.
   */
  function SendItemPayload<I>(items: seq<I>, savedItemFolder: SavedItemFolder,
                              itemIdsElement: seq<I> -> Element, folderElement: SavedItemFolder -> Element): Element
  {
    Element(Clark(MNS, SERVICE_NAME), [Attr("SaveItemToFolder", BoolText(savedItemFolder.truthy))], None,
            [itemIdsElement(items)]
            + if savedItemFolder.truthy
              then [Element(SAVED_ITEM_FOLDER_ID_TAG, [], None, [folderElement(savedItemFolder)])]
              else [])
  }

  /**
   * A reader of the payload recovers the decision: SaveItemToFolder reads
   * "true" exactly when a folder is given, and an m:SavedItemFolderId child
   * holding that folder is there exactly then.
   */
  lemma SendItemPayloadReadBack<I>(items: seq<I>, savedItemFolder: SavedItemFolder,
                                   itemIdsElement: seq<I> -> Element, folderElement: SavedItemFolder -> Element)
    requires itemIdsElement(items).tag != SAVED_ITEM_FOLDER_ID_TAG
    ensures var p := SendItemPayload(items, savedItemFolder, itemIdsElement, folderElement);
      && (GetAttr(p.attrs, "SaveItemToFolder") == Some("true") <==> savedItemFolder.truthy)
      && (FindChild(p.children, SAVED_ITEM_FOLDER_ID_TAG).Some? <==> savedItemFolder.truthy)
      && (savedItemFolder.truthy ==>
            FindChild(p.children, SAVED_ITEM_FOLDER_ID_TAG).value.children == [folderElement(savedItemFolder)])
      && p.children[0] == itemIdsElement(items)
  {
    var p := SendItemPayload(items, savedItemFolder, itemIdsElement, folderElement);
    var ids := itemIdsElement(items);
    assert GetAttr(p.attrs, "SaveItemToFolder") == Some(BoolText(savedItemFolder.truthy));
    if savedItemFolder.truthy {
      var wrapper := Element(SAVED_ITEM_FOLDER_ID_TAG, [], None, [folderElement(savedItemFolder)]);
      FindChildConcat([ids], [wrapper], SAVED_ITEM_FOLDER_ID_TAG);
    } else {
      assert p.children == [ids];
    }
  }

  /** The forwarded request gives every chunk the same saved_item_folder decision. */
  lemma PooledPayloadKeepsFolder<I>(items: seq<I>, savedItemFolder: SavedItemFolder, chunk: seq<I>,
                                    itemIdsElement: seq<I> -> Element, folderElement: SavedItemFolder -> Element)
    requires Call(items, savedItemFolder).Ok?
    ensures var req := Call(items, savedItemFolder).value;
      GetAttr(SendItemPayload(chunk, req.savedItemFolder, itemIdsElement, folderElement).attrs, "SaveItemToFolder")
        == Some(BoolText(savedItemFolder.truthy))
  {
  }

  /** get_payload: create the element with its attribute, then append the children in order. */
  method GetPayload<I>(items: seq<I>, savedItemFolder: SavedItemFolder,
                       itemIdsElement: seq<I> -> Element, folderElement: SavedItemFolder -> Element)
    returns (p: Element)
    ensures p == SendItemPayload(items, savedItemFolder, itemIdsElement, folderElement)
  {
    ExpandPrefixed(SERVICE_NAME);
    var senditem := new XmlNode("m:" + SERVICE_NAME);
    senditem.Set("SaveItemToFolder", if savedItemFolder.truthy then "true" else "false");
    var itemIds := itemIdsElement(items);
    senditem.Append(itemIds);
    if savedItemFolder.truthy {
      ExpandPrefixed(SAVED_ITEM_FOLDER_ID);
      var saveditemfolderid := new XmlNode("m:" + SAVED_ITEM_FOLDER_ID);
      saveditemfolderid.Append(folderElement(savedItemFolder));
      assert saveditemfolderid.children == [folderElement(savedItemFolder)];
      senditem.Append(saveditemfolderid.Value());
    } else {
      assert senditem.children == [itemIds] + [];
    }
    p := senditem.Value();
  }
}
