/**
 * The hand-gesture result normaliser (`convert_to_serializable` and its inner
 * `category_to_dict` and `landmark_to_dict`): it turns the gesture
 * recogniser's result, four lists of per-hand lists, into a four-key
 * dictionary of nested lists of fixed-key records. It is built only from dict
 * literals and list comprehensions, so it is modelled as functions.
 */
module HandFeatureExtraction {
  import opened Wrappers
  import opened JsonModel

  /** A classification: a recognised gesture, or which hand it is. */
  datatype Category = Category(index: int, score: real, displayName: string, categoryName: string)

  /** A hand landmark, normalised to the image or in world coordinates. */
  datatype Landmark = Landmark(x: real, y: real, z: real, visibility: real, presence: real)

  /** The fields of the engine's result that the normaliser reads: one inner list per detected hand. */
  datatype GestureResult = GestureResult(
    gestures: seq<seq<Category>>,
    handedness: seq<seq<Category>>,
    handLandmarks: seq<seq<Landmark>>,
    handWorldLandmarks: seq<seq<Landmark>>)

  /** `category_to_dict`: exactly the four keys, in this order, no key twice. */
  function CategoryToDict(c: Category): (r: Json)
    ensures r.JObject? && KeyList(r.members) == ["index", "score", "display_name", "category_name"]
    ensures DistinctKeys(r.members)
  {
    JObject([
      ("index", JInt(c.index)),
      ("score", JReal(c.score)),
      ("display_name", JString(c.displayName)),
      ("category_name", JString(c.categoryName))])
  }

  /** Each key of `category_to_dict` holds the category's field of that name, unchanged. */
  lemma CategoryToDictFields(c: Category)
    ensures Get(CategoryToDict(c), "index") == Some(JInt(c.index))
    ensures Get(CategoryToDict(c), "score") == Some(JReal(c.score))
    ensures Get(CategoryToDict(c), "display_name") == Some(JString(c.displayName))
    ensures Get(CategoryToDict(c), "category_name") == Some(JString(c.categoryName))
  {
    var ms := CategoryToDict(c).members;
    LookupDistinct(ms, 0);
    LookupDistinct(ms, 1);
    LookupDistinct(ms, 2);
    LookupDistinct(ms, 3);
  }

  /** `landmark_to_dict`: exactly the five keys, in this order, no key twice. */
  function LandmarkToDict(l: Landmark): (r: Json)
    ensures r.JObject? && KeyList(r.members) == ["x", "y", "z", "visibility", "presence"]
    ensures DistinctKeys(r.members)
  {
    JObject([
      ("x", JReal(l.x)),
      ("y", JReal(l.y)),
      ("z", JReal(l.z)),
      ("visibility", JReal(l.visibility)),
      ("presence", JReal(l.presence))])
  }

  /** Each key of `landmark_to_dict` holds the landmark's field of that name, unchanged. */
  lemma LandmarkToDictFields(l: Landmark)
    ensures Get(LandmarkToDict(l), "x") == Some(JReal(l.x))
    ensures Get(LandmarkToDict(l), "y") == Some(JReal(l.y))
    ensures Get(LandmarkToDict(l), "z") == Some(JReal(l.z))
    ensures Get(LandmarkToDict(l), "visibility") == Some(JReal(l.visibility))
    ensures Get(LandmarkToDict(l), "presence") == Some(JReal(l.presence))
  {
    var ms := LandmarkToDict(l).members;
    LookupDistinct(ms, 0);
    LookupDistinct(ms, 1);
    LookupDistinct(ms, 2);
    LookupDistinct(ms, 3);
    LookupDistinct(ms, 4);
  }

  /** `convert_to_serializable`: one key per list of the result, in the source's order. */
  function ConvertToSerializable(g: GestureResult): (r: Json)
    ensures r.JObject?
    ensures KeyList(r.members) == ["gestures", "handedness", "hand_landmarks", "hand_world_landmarks"]
    ensures DistinctKeys(r.members)
  {
    JObject([
      ("gestures", JArray(NestedToJson(g.gestures, CategoryToDict))),
      ("handedness", JArray(NestedToJson(g.handedness, CategoryToDict))),
      ("hand_landmarks", JArray(NestedToJson(g.handLandmarks, LandmarkToDict))),
      ("hand_world_landmarks", JArray(NestedToJson(g.handWorldLandmarks, LandmarkToDict)))])
  }

  /** Each key of the output holds the comprehension over the result's list of that name. */
  lemma ConvertFields(g: GestureResult)
    ensures Get(ConvertToSerializable(g), "gestures") == Some(JArray(NestedToJson(g.gestures, CategoryToDict)))
    ensures Get(ConvertToSerializable(g), "handedness") == Some(JArray(NestedToJson(g.handedness, CategoryToDict)))
    ensures Get(ConvertToSerializable(g), "hand_landmarks") == Some(JArray(NestedToJson(g.handLandmarks, LandmarkToDict)))
    ensures Get(ConvertToSerializable(g), "hand_world_landmarks") ==
      Some(JArray(NestedToJson(g.handWorldLandmarks, LandmarkToDict)))
  {
    var ms := ConvertToSerializable(g).members;
    LookupDistinct(ms, 0);
    LookupDistinct(ms, 1);
    LookupDistinct(ms, 2);
    LookupDistinct(ms, 3);
  }

  /** Each of the four lists keeps its nested shape and order; nothing is filtered or reordered. */
  lemma GestureResultShape(g: GestureResult)
    ensures Mirrors(Get(ConvertToSerializable(g), "gestures"), g.gestures, CategoryToDict)
    ensures Mirrors(Get(ConvertToSerializable(g), "handedness"), g.handedness, CategoryToDict)
    ensures Mirrors(Get(ConvertToSerializable(g), "hand_landmarks"), g.handLandmarks, LandmarkToDict)
    ensures Mirrors(Get(ConvertToSerializable(g), "hand_world_landmarks"), g.handWorldLandmarks, LandmarkToDict)
  {
    ConvertFields(g);
    NestedMirrors(g.gestures, CategoryToDict);
    NestedMirrors(g.handedness, CategoryToDict);
    NestedMirrors(g.handLandmarks, LandmarkToDict);
    NestedMirrors(g.handWorldLandmarks, LandmarkToDict);
  }

  /** Empty lists in the result give empty lists in the output. */
  lemma EmptyResult()
    ensures ConvertToSerializable(GestureResult([], [], [], [])) ==
      JObject([("gestures", JArray([])), ("handedness", JArray([])),
               ("hand_landmarks", JArray([])), ("hand_world_landmarks", JArray([]))])
  {
  }

  // Reading a normalised result back, field by field, as a consumer of the JSON would.

  function DecodeCategory(j: Json): (r: Option<Category>)
  {
    match (Get(j, "index"), Get(j, "score"), Get(j, "display_name"), Get(j, "category_name"))
    case (Some(JInt(i)), Some(JReal(s)), Some(JString(d)), Some(JString(n))) => Some(Category(i, s, d, n))
    case _ => None
  }

  function DecodeLandmark(j: Json): (r: Option<Landmark>)
  {
    match (Get(j, "x"), Get(j, "y"), Get(j, "z"), Get(j, "visibility"), Get(j, "presence"))
    case (Some(JReal(x)), Some(JReal(y)), Some(JReal(z)), Some(JReal(v)), Some(JReal(p))) =>
      Some(Landmark(x, y, z, v, p))
    case _ => None
  }

  function DecodeGestureResult(j: Json): (r: Option<GestureResult>)
  {
    match (Get(j, "gestures"), Get(j, "handedness"), Get(j, "hand_landmarks"), Get(j, "hand_world_landmarks"))
    case (Some(JArray(a)), Some(JArray(b)), Some(JArray(c)), Some(JArray(d))) =>
      (match (DecodeNested(a, DecodeCategory), DecodeNested(b, DecodeCategory),
              DecodeNested(c, DecodeLandmark), DecodeNested(d, DecodeLandmark))
       case (Some(gs), Some(hs), Some(ls), Some(ws)) => Some(GestureResult(gs, hs, ls, ws))
       case _ => None)
    case _ => None
  }

  /** `category_to_dict` loses nothing: every field can be read back. */
  lemma CategoryRoundTrip(c: Category)
    ensures DecodeCategory(CategoryToDict(c)) == Some(c)
  {
    CategoryToDictFields(c);
  }

  /** `landmark_to_dict` loses nothing: every field can be read back. */
  lemma LandmarkRoundTrip(l: Landmark)
    ensures DecodeLandmark(LandmarkToDict(l)) == Some(l)
  {
    LandmarkToDictFields(l);
  }

  /** The whole normaliser loses nothing: the result can be rebuilt from its output. */
  lemma ConvertRoundTrip(g: GestureResult)
    ensures DecodeGestureResult(ConvertToSerializable(g)) == Some(g)
  {
    forall c ensures DecodeCategory(CategoryToDict(c)) == Some(c) { CategoryRoundTrip(c); }
    forall l ensures DecodeLandmark(LandmarkToDict(l)) == Some(l) { LandmarkRoundTrip(l); }
    NestedRoundTrip(g.gestures, CategoryToDict, DecodeCategory);
    NestedRoundTrip(g.handedness, CategoryToDict, DecodeCategory);
    NestedRoundTrip(g.handLandmarks, LandmarkToDict, DecodeLandmark);
    NestedRoundTrip(g.handWorldLandmarks, LandmarkToDict, DecodeLandmark);
    ConvertFields(g);
  }

  /** Every dictionary in the output, at any depth, has distinct keys. */
  lemma ConvertWellFormed(g: GestureResult)
    ensures WellFormed(ConvertToSerializable(g))
  {
    forall c ensures WellFormed(CategoryToDict(c)) { }
    forall l ensures WellFormed(LandmarkToDict(l)) { }
    NestedWellFormed(g.gestures, CategoryToDict);
    NestedWellFormed(g.handedness, CategoryToDict);
    NestedWellFormed(g.handLandmarks, LandmarkToDict);
    NestedWellFormed(g.handWorldLandmarks, LandmarkToDict);
  }

  /** One recognised thumbs-up with one landmark comes out with those exact names and values. */
  lemma ThumbUpExample()
    ensures var g := GestureResult([[Category(0, 0.9, "Thumb_Up", "Thumb_Up")]], [],
                                   [[Landmark(0.1, 0.2, 0.0, 1.0, 1.0)]], []);
      ConvertToSerializable(g) == JObject([
        ("gestures", JArray([JArray([JObject([("index", JInt(0)), ("score", JReal(0.9)),
                                              ("display_name", JString("Thumb_Up")),
                                              ("category_name", JString("Thumb_Up"))])])])),
        ("handedness", JArray([])),
        ("hand_landmarks", JArray([JArray([JObject([("x", JReal(0.1)), ("y", JReal(0.2)),
                                                    ("z", JReal(0.0)), ("visibility", JReal(1.0)),
                                                    ("presence", JReal(1.0))])])])),
        ("hand_world_landmarks", JArray([]))])
  {
    var c := Category(0, 0.9, "Thumb_Up", "Thumb_Up");
    var l := Landmark(0.1, 0.2, 0.0, 1.0, 1.0);
    assert ListToJson([c], CategoryToDict) == [CategoryToDict(c)];
    assert ListToJson([l], LandmarkToDict) == [LandmarkToDict(l)];
    assert NestedToJson([[c]], CategoryToDict) == [JArray([CategoryToDict(c)])];
    assert NestedToJson([[l]], LandmarkToDict) == [JArray([LandmarkToDict(l)])];
  }
}
