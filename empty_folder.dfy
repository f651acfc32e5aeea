/**
 * The EmptyFolder service: argument forwarding and the request payload.
 * create_folder_ids_element and _pool_requests
 * (exchangelib/services/common.py) are not part of this model; the
 * folder ids element is given as a parameter, already bound to the
 * account's version.
 */
module EmptyFolderService {
  import opened Common
  import opened Xml

  const SERVICE_NAME: string := "EmptyFolder"

  /** EmptyFolder responses carry no elements. */
  const RETURNS_ELEMENTS: bool := false

  const DELETE_TYPE: string := "DeleteType"
  const DELETE_SUB_FOLDERS: string := "DeleteSubFolders"

  /** What call hands to _pool_requests besides get_payload: the folders as its items. */
  datatype EmptyFolderRequest<F> = EmptyFolderRequest(items: seq<F>, deleteType: string, deleteSubFolders: bool)

  /** call: forward the folders as the items, and both options unchanged. */
  function Call<F>(folders: seq<F>, deleteType: string, deleteSubFolders: bool): (r: EmptyFolderRequest<F>)
    ensures r.items == folders && r.deleteType == deleteType && r.deleteSubFolders == deleteSubFolders
  {
    EmptyFolderRequest(folders, deleteType, deleteSubFolders)
  }

  /**
   * The EmptyFolder payload: DeleteType then DeleteSubFolders, and one
   * child, the m:FolderIds element of the folders.
   */
  function EmptyFolderPayload<F>(folders: seq<F>, deleteType: string, deleteSubFolders: bool,
                                 folderIdsElement: (string, seq<F>) -> Element): Element
  {
    Element(Clark(MNS, SERVICE_NAME),
            [Attr(DELETE_TYPE, deleteType), Attr(DELETE_SUB_FOLDERS, if deleteSubFolders then "true" else "false")],
            None, [folderIdsElement("m:FolderIds", folders)])
  }

  /**
   * A reader of the payload gets DeleteType back verbatim, reads
   * DeleteSubFolders as "true" exactly when sub-folders are to go, and
   * finds the folder ids as the only child.
   */
  lemma EmptyFolderPayloadReadBack<F>(folders: seq<F>, deleteType: string, deleteSubFolders: bool,
                                      folderIdsElement: (string, seq<F>) -> Element)
    ensures var p := EmptyFolderPayload(folders, deleteType, deleteSubFolders, folderIdsElement);
      && GetAttr(p.attrs, DELETE_TYPE) == Some(deleteType)
      && (GetAttr(p.attrs, DELETE_SUB_FOLDERS) == Some("true") <==> deleteSubFolders)
      && GetAttr(p.attrs, DELETE_SUB_FOLDERS).Some?
      && FindChild(p.children, folderIdsElement("m:FolderIds", folders).tag) == Some(folderIdsElement("m:FolderIds", folders))
  {
    var p := EmptyFolderPayload(folders, deleteType, deleteSubFolders, folderIdsElement);
    var b := if deleteSubFolders then "true" else "false";
    assert p.attrs[1..] == [Attr(DELETE_SUB_FOLDERS, b)];
    assert GetAttr(p.attrs, DELETE_SUB_FOLDERS) == Some(b);
  }

  /** Every chunk the pool builds from the forwarded request carries the caller's options. */
  lemma PooledPayloadKeepsOptions<F>(folders: seq<F>, deleteType: string, deleteSubFolders: bool, chunk: seq<F>,
                                     folderIdsElement: (string, seq<F>) -> Element)
    ensures var req := Call(folders, deleteType, deleteSubFolders);
      EmptyFolderPayload(chunk, req.deleteType, req.deleteSubFolders, folderIdsElement)
        == EmptyFolderPayload(chunk, deleteType, deleteSubFolders, folderIdsElement)
  {
  }

  /** get_payload: create the element with its two attributes in order, then append the folder ids. */
  method GetPayload<F>(folders: seq<F>, deleteType: string, deleteSubFolders: bool,
                       folderIdsElement: (string, seq<F>) -> Element)
    returns (p: Element)
    ensures p == EmptyFolderPayload(folders, deleteType, deleteSubFolders, folderIdsElement)
  {
    ExpandPrefixed(SERVICE_NAME);
    var emptyfolder := new XmlNode("m:" + SERVICE_NAME);
    var b := if deleteSubFolders then "true" else "false";
    SetTwoAttrs(DELETE_TYPE, deleteType, DELETE_SUB_FOLDERS, b);
    emptyfolder.Set(DELETE_TYPE, deleteType);
    emptyfolder.Set(DELETE_SUB_FOLDERS, b);
    var folderIds := folderIdsElement("m:FolderIds", folders);
    emptyfolder.Append(folderIds);
    p := emptyfolder.Value();
  }
}
