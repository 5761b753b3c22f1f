/**
 * The text-recognition result normaliser
 * (`convert_text_recognition_result_to_serializable`): it walks the
 * recogniser's `full_information` items, appending one
 * `{description, bounding_poly: {vertices: [{x, y}, ...]}}` record per item
 * to a list, and wraps that list with the recognised text and its locale.
 * The append loop is modelled as a method; TextResultToJson is the
 * comprehension it computes, and the lemmas below are about that function.
 */
module TextRecognition {
  import opened Wrappers
  import opened JsonModel

  /** A corner of a bounding polygon, in pixel coordinates. */
  datatype Vertex = Vertex(x: int, y: int)

  datatype BoundingPoly = BoundingPoly(vertices: seq<Vertex>)

  /** One recognised span of text and where it is in the image. */
  datatype TextItem = TextItem(description: string, boundingPoly: BoundingPoly)

  /** The fields of the engine's result that the normaliser reads. */
  datatype TextRecognitionResult = TextRecognitionResult(text: string, locale: string, fullInformation: seq<TextItem>)

  /** The `{"x": vertex.x, "y": vertex.y}` record of the vertex comprehension. */
  function VertexToDict(v: Vertex): (r: Json)
    ensures r.JObject? && KeyList(r.members) == ["x", "y"]
    ensures Get(r, "x") == Some(JInt(v.x)) && Get(r, "y") == Some(JInt(v.y))
  {
    JObject([("x", JInt(v.x)), ("y", JInt(v.y))])
  }

  /** The `text_data` record built for one item. */
  function ItemToDict(item: TextItem): (r: Json)
    ensures r.JObject? && KeyList(r.members) == ["description", "bounding_poly"]
  {
    JObject([
      ("description", JString(item.description)),
      ("bounding_poly", JObject([("vertices", JArray(ListToJson(item.boundingPoly.vertices, VertexToDict)))]))])
  }

  /** What the normaliser returns: the text, its locale, and one record per item in order. */
  function TextResultToJson(data: TextRecognitionResult): (r: Json)
    ensures r.JObject? && KeyList(r.members) == ["text", "locale", "full_information"]
  {
    JObject([
      ("text", JString(data.text)),
      ("locale", JString(data.locale)),
      ("full_information", JArray(ListToJson(data.fullInformation, ItemToDict)))])
  }

  /**
   * `convert_text_recognition_result_to_serializable`: the append loop.
   * After k iterations the list holds exactly the records of the first k items, in order.
   */
  method ConvertTextRecognitionResult(data: TextRecognitionResult) returns (result: Json)
    ensures result == TextResultToJson(data)
  {
    var serializableData: seq<Json> := [];
    for k := 0 to |data.fullInformation|
      invariant |serializableData| == k
      invariant forall i :: 0 <= i < k ==> serializableData[i] == ItemToDict(data.fullInformation[i])
    {
      var item := data.fullInformation[k];
      var textData := JObject([
        ("description", JString(item.description)),
        ("bounding_poly", JObject([("vertices", JArray(ListToJson(item.boundingPoly.vertices, VertexToDict)))]))]);
      serializableData := serializableData + [textData];
    }
    assert serializableData == ListToJson(data.fullInformation, ItemToDict);
    result := JObject([
      ("text", JString(data.text)),
      ("locale", JString(data.locale)),
      ("full_information", JArray(serializableData))]);
  }

  /**
   * An item's record holds its description unchanged, and a bounding polygon
   * with the single key `vertices`, listing one `{x, y}` record per vertex in order.
   */
  lemma ItemToDictFields(item: TextItem)
    ensures Get(ItemToDict(item), "description") == Some(JString(item.description))
    ensures var bp := Get(ItemToDict(item), "bounding_poly");
      bp.Some? && bp.value.JObject? && KeyList(bp.value.members) == ["vertices"] &&
      var vs := Get(bp.value, "vertices");
      vs.Some? && vs.value.JArray? && |vs.value.items| == |item.boundingPoly.vertices| &&
      forall k :: 0 <= k < |item.boundingPoly.vertices| ==>
        vs.value.items[k] == VertexToDict(item.boundingPoly.vertices[k])
  {
    var ms := ItemToDict(item).members;
    LookupDistinct(ms, 0);
    LookupDistinct(ms, 1);
  }

  /**
   * The output holds the text and locale unchanged, and exactly one record per
   * item, the k-th being the k-th item's.
   */
  lemma TextResultFields(data: TextRecognitionResult)
    ensures Get(TextResultToJson(data), "text") == Some(JString(data.text))
    ensures Get(TextResultToJson(data), "locale") == Some(JString(data.locale))
    ensures var fi := Get(TextResultToJson(data), "full_information");
      fi.Some? && fi.value.JArray? && |fi.value.items| == |data.fullInformation| &&
      forall k :: 0 <= k < |data.fullInformation| ==> fi.value.items[k] == ItemToDict(data.fullInformation[k])
  {
    var ms := TextResultToJson(data).members;
    LookupDistinct(ms, 0);
    LookupDistinct(ms, 1);
    LookupDistinct(ms, 2);
  }

  // Reading a normalised result back, field by field.

  function DecodeVertex(j: Json): (r: Option<Vertex>)
  {
    match (Get(j, "x"), Get(j, "y"))
    case (Some(JInt(x)), Some(JInt(y))) => Some(Vertex(x, y))
    case _ => None
  }

  function DecodeItem(j: Json): (r: Option<TextItem>)
  {
    match (Get(j, "description"), Get(j, "bounding_poly"))
    case (Some(JString(d)), Some(bp)) =>
      (match Get(bp, "vertices")
       case Some(JArray(vs)) =>
         (match DecodeList(vs, DecodeVertex)
          case Some(vertices) => Some(TextItem(d, BoundingPoly(vertices)))
          case None => None)
       case _ => None)
    case _ => None
  }

  function DecodeTextResult(j: Json): (r: Option<TextRecognitionResult>)
  {
    match (Get(j, "text"), Get(j, "locale"), Get(j, "full_information"))
    case (Some(JString(t)), Some(JString(l)), Some(JArray(items))) =>
      (match DecodeList(items, DecodeItem)
       case Some(fi) => Some(TextRecognitionResult(t, l, fi))
       case None => None)
    case _ => None
  }

  /** An item's record loses nothing: the item can be rebuilt from it. */
  lemma ItemRoundTrip(item: TextItem)
    ensures DecodeItem(ItemToDict(item)) == Some(item)
  {
    ItemToDictFields(item);
    ListRoundTrip(item.boundingPoly.vertices, VertexToDict, DecodeVertex);
    assert Get(JObject([("vertices", JArray(ListToJson(item.boundingPoly.vertices, VertexToDict)))]), "vertices")
      == Some(JArray(ListToJson(item.boundingPoly.vertices, VertexToDict)));
  }

  /** The normaliser loses nothing: the result can be rebuilt from its output. */
  lemma TextResultRoundTrip(data: TextRecognitionResult)
    ensures DecodeTextResult(TextResultToJson(data)) == Some(data)
  {
    TextResultFields(data);
    forall item ensures DecodeItem(ItemToDict(item)) == Some(item) { ItemRoundTrip(item); }
    ListRoundTrip(data.fullInformation, ItemToDict, DecodeItem);
    var j := TextResultToJson(data);
    assert Get(j, "full_information") == Some(JArray(ListToJson(data.fullInformation, ItemToDict)));
  }

  /** Every dictionary in the output, at any depth, has distinct keys. */
  lemma TextResultWellFormed(data: TextRecognitionResult)
    ensures WellFormed(TextResultToJson(data))
  {
    forall v ensures WellFormed(VertexToDict(v)) { }
    forall item ensures WellFormed(ItemToDict(item)) {
      ListWellFormed(item.boundingPoly.vertices, VertexToDict);
    }
    ListWellFormed(data.fullInformation, ItemToDict);
  }

  /** Text "hi" in locale "en", one item with one vertex (1, 2), comes out as that literal structure. */
  lemma HiExample()
    ensures TextResultToJson(TextRecognitionResult("hi", "en", [TextItem("hi", BoundingPoly([Vertex(1, 2)]))])) ==
      JObject([
        ("text", JString("hi")),
        ("locale", JString("en")),
        ("full_information", JArray([JObject([
          ("description", JString("hi")),
          ("bounding_poly", JObject([("vertices", JArray([JObject([("x", JInt(1)), ("y", JInt(2))])]))]))])]))])
  {
    var v := Vertex(1, 2);
    var item := TextItem("hi", BoundingPoly([v]));
    assert ListToJson([v], VertexToDict) == [VertexToDict(v)];
    assert ListToJson([item], ItemToDict) == [ItemToDict(item)];
  }
}
