/**
 * The voice-generation view carries its own copy of the text-recognition
 * normaliser, statement for statement. It is modelled as its own method, and
 * its contract says it returns, for every input, exactly what the
 * text-recognition normaliser returns.
 */
module VoiceGeneration {
  import opened JsonModel
  import TextRecognition

  /** `convert_text_recognition_result_to_serializable`, the voice-generation copy. */
  method ConvertTextRecognitionResult(data: TextRecognition.TextRecognitionResult) returns (result: Json)
    ensures result == TextRecognition.TextResultToJson(data)
  {
    var serializableData: seq<Json> := [];
    for k := 0 to |data.fullInformation|
      invariant |serializableData| == k
      invariant forall i :: 0 <= i < k ==> serializableData[i] == TextRecognition.ItemToDict(data.fullInformation[i])
    {
      var item := data.fullInformation[k];
      var textData := JObject([
        ("description", JString(item.description)),
        ("bounding_poly", JObject([("vertices", JArray(ListToJson(item.boundingPoly.vertices, TextRecognition.VertexToDict)))]))]);
      serializableData := serializableData + [textData];
    }
    assert serializableData == ListToJson(data.fullInformation, TextRecognition.ItemToDict);
    result := JObject([
      ("text", JString(data.text)),
      ("locale", JString(data.locale)),
      ("full_information", JArray(serializableData))]);
  }
}
