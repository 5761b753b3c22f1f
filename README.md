# drone-buddy-api result normalisers, in Dafny

drone-buddy-api is a thin HTTP front end. Each view decodes a request, builds a
perception engine from the external `dronebuddylib` library, calls it once and
returns the engine's result as JSON. The only logic the repository owns is its
result normalisers. These are total functions that turn an engine's native
result object into a JSON-safe nested structure. This project models the two
normalisers written by hand:

- the hand-gesture normaliser `convert_to_serializable`, with its inner
  `category_to_dict` and `landmark_to_dict`
  (`drone_buddy_api/views/hand_feature_extraction.py`);
- the text-recognition normaliser `convert_text_recognition_result_to_serializable`
  (`drone_buddy_api/views/text_recognition.py`), and its verbatim copy in
  `drone_buddy_api/views/voice_generation.py`.

Files:

- `wrappers.dfy`: `Option`.
- `json.dfy` (module `JsonModel`): JSON values. An object is an ordered
  sequence of members, because a Python dict keeps insertion order. The file
  also holds `Lookup`/`Get` (reading a key) and `WellFormed` (every object has
  distinct keys). It models the list comprehension `[f(x) for x in xs]` once,
  as `ListToJson`/`NestedToJson`, with decoders and round-trip lemmas.
- `hand_feature_extraction.dfy`: the gesture result and its normaliser. The
  source builds it from dict literals and comprehensions only, so it is
  modelled with functions and lemmas.
- `text_recognition.dfy`: the text result and its normaliser. The source
  appends to a list in a `for` loop, so the normaliser is a method with a
  loop. Its contract ties the result to the function `TextResultToJson`, and
  the lemmas are about that function.
- `voice_generation.dfy`: the duplicate normaliser as its own loop method.
  Its contract says it returns exactly what the text-recognition normaliser
  returns.

Every operation has a partner. Each record builder has a decoder, with a
round-trip lemma showing that no field is lost. Each list conversion has a
"mirror" statement: same lengths, and element [i][j] comes from input
element [i][j]. Every output is also proved `WellFormed`, meaning it has no
duplicate keys.

## Model

| member | source | states |
|---|---|---|
| `HandFeatureExtraction.CategoryToDict` | drone_buddy_api/views/hand_feature_extraction.py:78-84 | a category becomes an object with exactly the keys `index`, `score`, `display_name`, `category_name`, in that order, none repeated |
| `HandFeatureExtraction.CategoryToDictFields` | drone_buddy_api/views/hand_feature_extraction.py:78-84 | each of those keys holds the category's field of that name, unchanged |
| `HandFeatureExtraction.CategoryRoundTrip` | drone_buddy_api/views/hand_feature_extraction.py:78-84 | reading the four keys back rebuilds the original category |
| `HandFeatureExtraction.LandmarkToDict` | drone_buddy_api/views/hand_feature_extraction.py:86-93 | a landmark becomes an object with exactly the keys `x`, `y`, `z`, `visibility`, `presence`, in that order, none repeated |
| `HandFeatureExtraction.LandmarkToDictFields` | drone_buddy_api/views/hand_feature_extraction.py:86-93 | each of those keys holds the landmark's field of that name, unchanged |
| `HandFeatureExtraction.LandmarkRoundTrip` | drone_buddy_api/views/hand_feature_extraction.py:86-93 | reading the five keys back rebuilds the original landmark |
| `HandFeatureExtraction.ConvertToSerializable` | drone_buddy_api/views/hand_feature_extraction.py:95-102 | the result has exactly the keys `gestures`, `handedness`, `hand_landmarks`, `hand_world_landmarks`, in that order, none repeated; it is total |
| `HandFeatureExtraction.ConvertFields` | drone_buddy_api/views/hand_feature_extraction.py:96-101 | each of the four keys holds the nested comprehension over the result's list of that name |
| `HandFeatureExtraction.GestureResultShape` | drone_buddy_api/views/hand_feature_extraction.py:96-101 | for all four lists: outer length kept, each inner length kept, and output [i][j] is the conversion of input [i][j], so nothing is filtered or reordered |
| `HandFeatureExtraction.EmptyResult` | drone_buddy_api/views/hand_feature_extraction.py:95-102 | a result with four empty lists gives four empty lists under the four keys |
| `HandFeatureExtraction.ConvertRoundTrip` | drone_buddy_api/views/hand_feature_extraction.py:77-104 | the gesture result can be rebuilt exactly from the normalised output |
| `HandFeatureExtraction.ConvertWellFormed` | drone_buddy_api/views/hand_feature_extraction.py:77-104 | every object in the output, at any depth, has distinct keys |
| `HandFeatureExtraction.ThumbUpExample` | drone_buddy_api/views/hand_feature_extraction.py:77-104 | one `Thumb_Up` category and one landmark come out with those exact names and values under `gestures` and `hand_landmarks` |
| `JsonModel.ListToJson` | drone_buddy_api/views/text_recognition.py:78 | a list comprehension gives one output per input, and the k-th output is the conversion of the k-th input |
| `JsonModel.NestedToJson` | drone_buddy_api/views/hand_feature_extraction.py:96-101 | a nested comprehension keeps the outer length and every inner length, and converts element [k][m] in place |
| `JsonModel.NestedMirrors` | drone_buddy_api/views/hand_feature_extraction.py:96-101 | the nested comprehension's output mirrors its input element for element |
| `JsonModel.ListRoundTrip` | drone_buddy_api/views/text_recognition.py:78 | a comprehension whose element conversion can be read back can itself be read back in full |
| `JsonModel.NestedRoundTrip` | drone_buddy_api/views/hand_feature_extraction.py:96-101 | the same for the nested comprehension |
| `TextRecognition.VertexToDict` | drone_buddy_api/views/text_recognition.py:78 | a vertex becomes an object with exactly the keys `x`, `y`, holding the vertex's coordinates unchanged |
| `TextRecognition.ItemToDict` | drone_buddy_api/views/text_recognition.py:75-80 | an item becomes an object with exactly the keys `description`, `bounding_poly` |
| `TextRecognition.ItemToDictFields` | drone_buddy_api/views/text_recognition.py:75-80 | `description` is the item's description unchanged; `bounding_poly` has the single key `vertices`, listing one `{x, y}` per vertex with the same length and order |
| `TextRecognition.ItemRoundTrip` | drone_buddy_api/views/text_recognition.py:75-80 | an item can be rebuilt exactly from its record |
| `TextRecognition.TextResultToJson` | drone_buddy_api/views/text_recognition.py:82-85 | the result has exactly the keys `text`, `locale`, `full_information`, in that order |
| `TextRecognition.TextResultFields` | drone_buddy_api/views/text_recognition.py:74-85 | `text` and `locale` are copied unchanged; `full_information` has one entry per input item, the k-th being the k-th item's record |
| `TextRecognition.ConvertTextRecognitionResult` | drone_buddy_api/views/text_recognition.py:71-86 | the append loop returns exactly `TextResultToJson(data)`; its invariant says that after k iterations the list holds the records of the first k items, in order |
| `TextRecognition.TextResultRoundTrip` | drone_buddy_api/views/text_recognition.py:71-86 | the text result can be rebuilt exactly from the normalised output |
| `TextRecognition.TextResultWellFormed` | drone_buddy_api/views/text_recognition.py:71-86 | every object in the output, at any depth, has distinct keys |
| `TextRecognition.HiExample` | drone_buddy_api/views/text_recognition.py:71-86 | text `hi`, locale `en` and one item with vertex (1, 2) give exactly the literal nested structure of the response |
| `VoiceGeneration.ConvertTextRecognitionResult` | drone_buddy_api/views/voice_generation.py:59-74 | the copy's append loop returns, for every input, the same value as the text-recognition normaliser, so the properties above hold for it too |

## Left out

- The `post` handlers and class-based views: request validation, CSRF
  exemption, swagger decorators and the `{message, result}` envelope. This is
  HTTP plumbing from the web framework.
- Image decoding with numpy and OpenCV, and the colour-order conversion. These
  are foreign library calls.
- Engine construction and inference through `dronebuddylib`. These are
  external engines. The algorithm name is passed on without any check, so
  there is no local selection logic to model.
- The fallback in the `engine_configurations` parse, where a failed
  `json.loads` leaves the raw string in place. It depends on Python's JSON
  parser.
- Results serialised through the library's own `to_json()`, in object
  detection and intent recognition. That serialisation lives in the external
  library.
- Text-to-speech through `pyttsx3` in the voice-generation view. It is audio
  I/O.
- The serializers module, the URL routing and the `ImageInput` model. They
  declare fields, routes and persistence and hold no logic.
- Field types: the engine's result objects are not part of this repository.
  The model takes a category's `index` as an integer, its `score` and every
  landmark coordinate as a real, names and text as strings, and vertex
  coordinates as integers. A field the engine leaves as `None` is not
  modelled. Numbers are only copied, so floating-point behaviour does not
  arise.
- The final step, where the web framework renders the structure to JSON
  text, is not modelled. The model stops at the JSON value.
