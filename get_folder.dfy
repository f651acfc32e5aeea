/**
 * The GetFolder service: the request payload, the response errors it
 * tolerates, and how returned elements are paired with the folders they
 * were requested for. The helpers of exchangelib/services/common.py it
 * relies on (create_shape_element, create_folder_ids_element,
 * parse_folder_elem, _chunked_get_elements) are not part of this model;
 * they are parameters, already bound to the account's version.
 */
module GetFolderService {
  import opened Common
  import opened Xml

  const SERVICE_NAME: string := "GetFolder"

  /** The container the response folders are found in. */
  const ELEMENT_CONTAINER_NAME: string := Clark(MNS, "Folders")

  /** The response errors GetFolder tolerates beyond those every account service does. */
  const EXTRA_ERRORS_TO_CATCH: seq<string> :=
    ["ErrorFolderNotFound", "ErrorNoPublicFolderReplicaAvailable", "ErrorInvalidOperation"]

  /**
   * ERRORS_TO_CATCH_IN_RESPONSE, given the base service's tuple: the base
   * first, then the three folder errors in order, and nothing else.
   */
  function ErrorsToCatchInResponse(base: seq<string>): (r: seq<string>)
    ensures |r| == |base| + 3 && r[..|base|] == base
    ensures r[|base|] == "ErrorFolderNotFound"
    ensures r[|base| + 1] == "ErrorNoPublicFolderReplicaAvailable"
    ensures r[|base| + 2] == "ErrorInvalidOperation"
    ensures forall x :: x in r <==> x in base || x in EXTRA_ERRORS_TO_CATCH
  {
    base + EXTRA_ERRORS_TO_CATCH
  }

  /** One item of what the chunking engine yields: a caught response error, or a folder element. */
  datatype Response = Raised(error: string) | Found(elem: Element)

  /** One item of what _elems_to_objs yields: the error unchanged, or the parsed folder. */
  datatype Yield<R> = Passed(error: string) | Parsed(folder: R)

  function Min(a: nat, b: nat): nat
  {
    if a <= b then a else b
  }

  /**
   * _elems_to_objs: zip the requested folders with the returned elements;
   * an error passes through at its own position, an element is parsed
   * together with the folder at the same position.
   */
  function ElemsToObjs<F, R>(folders: seq<F>, elems: seq<Response>, parse: (Element, F) -> R): (r: seq<Yield<R>>)
    ensures |r| == Min(|folders|, |elems|)
    ensures forall i :: 0 <= i < |r| ==>
      (elems[i].Raised? ==> r[i] == Passed(elems[i].error))
      && (elems[i].Found? ==> r[i] == Parsed(parse(elems[i].elem, folders[i])))
  {
    if folders == [] || elems == [] then []
    else
      var head := match elems[0]
        case Raised(e) => Passed(e)
        case Found(x) => Parsed(parse(x, folders[0]));
      [head] + ElemsToObjs(folders[1..], elems[1..], parse)
  }

  /**
   * Pairing chunk by chunk is pairing the whole: as long as each chunk of
   * folders gets as many elements back, the results line up.
   */
  lemma {:induction false} ElemsToObjsConcat<F, R>(f1: seq<F>, f2: seq<F>, e1: seq<Response>, e2: seq<Response>,
                                                   parse: (Element, F) -> R)
    requires |f1| == |e1|
    ensures ElemsToObjs(f1 + f2, e1 + e2, parse) == ElemsToObjs(f1, e1, parse) + ElemsToObjs(f2, e2, parse)
  {
    var whole := ElemsToObjs(f1 + f2, e1 + e2, parse);
    var parts := ElemsToObjs(f1, e1, parse) + ElemsToObjs(f2, e2, parse);
    assert |whole| == |parts|;
    forall i | 0 <= i < |whole|
      ensures whole[i] == parts[i]
    {
      if i < |f1| {
        assert (f1 + f2)[i] == f1[i] && (e1 + e2)[i] == e1[i];
      } else {
        assert (f1 + f2)[i] == f2[i - |f1|] && (e1 + e2)[i] == e2[i - |e1|];
      }
    }
  }

  /** Surplus folders or surplus elements are dropped without an error. */
  lemma {:induction false} ElemsToObjsTruncates<F, R>(folders: seq<F>, elems: seq<Response>, parse: (Element, F) -> R)
    ensures var m := Min(|folders|, |elems|);
      ElemsToObjs(folders, elems, parse) == ElemsToObjs(folders[..m], elems[..m], parse)
  {
    var m := Min(|folders|, |elems|);
    var a := ElemsToObjs(folders, elems, parse);
    var b := ElemsToObjs(folders[..m], elems[..m], parse);
    assert |a| == |b|;
    forall i | 0 <= i < |a|
      ensures a[i] == b[i]
    {
      assert folders[..m][i] == folders[i] && elems[..m][i] == elems[i];
    }
  }

  /** The GetFolder payload: an m:GetFolder element holding the folder shape, then the folder ids. */
  function GetFolderPayload<F, A>(folders: seq<F>, additionalFields: seq<A>, shape: string,
                                  shapeElement: (string, string, seq<A>) -> Element,
                                  folderIdsElement: (string, seq<F>) -> Element): Element
  {
    Element(Clark(MNS, SERVICE_NAME), [], None,
            [shapeElement("m:FolderShape", shape, additionalFields), folderIdsElement("m:FolderIds", folders)])
  }

  /** A reader of the payload finds the shape and the folder ids, whenever their tags differ. */
  lemma GetFolderPayloadReadBack<F, A>(folders: seq<F>, additionalFields: seq<A>, shape: string,
                                       shapeElement: (string, string, seq<A>) -> Element,
                                       folderIdsElement: (string, seq<F>) -> Element)
    requires shapeElement("m:FolderShape", shape, additionalFields).tag != folderIdsElement("m:FolderIds", folders).tag
    ensures var p := GetFolderPayload(folders, additionalFields, shape, shapeElement, folderIdsElement);
      var s := shapeElement("m:FolderShape", shape, additionalFields);
      var ids := folderIdsElement("m:FolderIds", folders);
      && FindChild(p.children, s.tag) == Some(s)
      && FindChild(p.children, ids.tag) == Some(ids)
  {
    var s := shapeElement("m:FolderShape", shape, additionalFields);
    var ids := folderIdsElement("m:FolderIds", folders);
    FindChildConcat([s], [ids], ids.tag);
    assert [s] + [ids] == [s, ids];
  }

  /** The GetFolder service of one account; folders is what call hands to the pairing. */
  class GetFolder<F> {
    var folders: seq<F>

    constructor ()
      ensures folders == []
    {
      folders := [];
    }

    /**
     * call: remember the folders once, fetch their elements in chunks and
     * pair each returned element with the folder it was requested for.
     * fetch stands for _chunked_get_elements driven by GetPayload.
     */
    method Call<A, R>(folders: seq<F>, additionalFields: seq<A>, shape: string,
                      fetch: (seq<F>, seq<A>, string) -> seq<Response>, parse: (Element, F) -> R)
      returns (r: seq<Yield<R>>)
      modifies this
      ensures this.folders == folders
      ensures r == ElemsToObjs(folders, fetch(folders, additionalFields, shape), parse)
    {
      this.folders := folders;
      var elems := fetch(this.folders, additionalFields, shape);
      r := ElemsToObjs(this.folders, elems, parse);
    }

    /** get_payload: build the m:GetFolder element by appending its two children. */
    method GetPayload<A>(folders: seq<F>, additionalFields: seq<A>, shape: string,
                         shapeElement: (string, string, seq<A>) -> Element,
                         folderIdsElement: (string, seq<F>) -> Element)
      returns (p: Element)
      ensures p == GetFolderPayload(folders, additionalFields, shape, shapeElement, folderIdsElement)
    {
      ExpandPrefixed(SERVICE_NAME);
      var getfolder := new XmlNode("m:" + SERVICE_NAME);
      var foldershape := shapeElement("m:FolderShape", shape, additionalFields);
      getfolder.Append(foldershape);
      var folderIds := folderIdsElement("m:FolderIds", folders);
      getfolder.Append(folderIds);
      p := getfolder.Value();
    }
  }
}
