# Schema hardening: `add_no_additional_properties`

`add_no_additional_properties` "hardens" a JSON schema. Its one caller,
`pydantic_model_to_json_schema` (services/gpt_handler.py:61-63), applies it
to the schema pydantic generates for a model. In the code as it stands,
the only use of that caller is commented out (services/gpt_handler.py:90).
The request path `generate_mongo_query` hands the pydantic class itself to
the language model client, so the transform is not applied there.

The function walks the schema dictionary. It gives every object schema it
reaches that declares `"type": "object"` and says nothing about extra keys
the member `"additionalProperties": false`. It goes down dict values and the dict
elements of a list value. It does not go into the elements of a top-level
list, nor into a list inside a list.
It changes the dictionaries in place and returns its argument.

This project models that function in Dafny, at two levels:

- `json_value.dfy` (module `JsonValue`) defines JSON values. Objects are
  ordered member lists, as Python dicts keep insertion order. It also
  defines `d.get(key)` (`Lookup`) and the node at a path of positions
  (`At`).
- `hardening.dfy` (module `Hardening`) is the transform as pure
  functions, one per part of the Python function:
  - `Harden` is the function itself;
  - `Close` is the guarded update;
  - `VisitMembers` is the loop over `schema.items()`;
  - `VisitValue` is the body of that loop;
  - `VisitElements` is the loop over a list value.
- `hardening_laws.dfy` (module `HardeningLaws`) proves what the function
  promises of that transform:
  - objects typed `"object"` are closed, and existing keys are kept;
  - the nodes the traversal reaches are closed, and every other node is
    left untouched;
  - nothing is removed, and the only new nodes are `false` flags;
  - applying the transform twice equals applying it once.
- `in_place.dfy` (module `InPlace`) is the function as the Python code runs
  it, on mutable objects:
  - `Dict` and `List` are classes, and a value may refer to either;
  - the dict is updated with an append to its entry sequence;
  - the loops are `while` loops over the entries and elements;
  - every method is proved to leave the objects standing for exactly what
    `Hardening` computes.
  - the constructors, `Dict.Add` and `List.Append` build valid trees;
    `NewExampleSchema` builds one nested schema this way, and `Example`
    calls the function on it and proves the closed result.

  Each object carries a ghost `model`, the JSON it stands for, and a ghost
  `repr`, the objects it owns. `Valid()` requires the schema to be a tree,
  so no object is shared between two places.

## Model

| member | source | states |
|---|---|---|
| `JsonValue.HasKey` | services/gpt_handler.py:70 | `key in d`, used for `"additionalProperties" not in schema`; defined by its body as membership in the key sequence `Keys`, whose contract gives each position's key |
| `JsonValue.LookupFirst` | services/gpt_handler.py:70 | the value `d.get(key)` returns is that of the first member with the key |
| `JsonValue.Lookup` | services/gpt_handler.py:70 | `d.get(key)` finds a value exactly when the key is present |
| `Hardening.Harden` | services/gpt_handler.py:67-79 | the function itself on JSON values; defined by its body, and its properties are the `Hardening` lemma rows and the `HardeningLaws` rows |
| `Hardening.NeedsClosing` | services/gpt_handler.py:70 | the guard: "type" is "object" and there is no "additionalProperties"; defined by its body, and its properties are the `HardeningLaws.ClosesObjectTypedRoot`, `KeepsExistingAdditionalProperties` and `OtherTypesNotClosed` rows |
| `Hardening.Close` | services/gpt_handler.py:70-71 | the guarded update, which appends the flag last; defined by its body, and its properties are the `Hardening.HardenObject` and `HardeningLaws.HardenedKeys` rows |
| `Hardening.VisitMembers` | services/gpt_handler.py:72-78 | the loop over `schema.items()`; defined by its body, and its properties are the `Hardening.VisitMembersShape`, `LookupVisited` and `KeysVisited` rows |
| `Hardening.VisitValue` | services/gpt_handler.py:73-78 | the body of that loop for one value; defined by its body, and its properties are the `Hardening.VisitValueKind` and `HardeningLaws.HardenedMember` rows |
| `Hardening.VisitElements` | services/gpt_handler.py:76-78 | the loop over a list value; defined by its body, and its properties are the `Hardening.VisitElementsShape` and `HardeningLaws.HardenedElement` rows |
| `Hardening.HardenObject` | services/gpt_handler.py:69-74 | a transformed dict keeps every old member at its position with its value visited; it grows by one member, `"additionalProperties": false` at the end, exactly when the guard holds |
| `Hardening.VisitMembersShape` | services/gpt_handler.py:72-74 | the loop over `schema.items()` keeps every key in place and visits the value beside it |
| `Hardening.VisitElementsShape` | services/gpt_handler.py:75-78 | the loop over a list value keeps the list's length; a dict element is transformed and any other element is kept |
| `Hardening.VisitValueKind` | services/gpt_handler.py:73-78 | visiting keeps a value's kind (dict, list, scalar), and a scalar is unchanged |
| `Hardening.LookupVisited` | services/gpt_handler.py:72-74 | after the loop, looking a key up finds the visited old value, and a missing key stays missing |
| `Hardening.KeysVisited` | services/gpt_handler.py:72-74 | the loop over the items changes no key |
| `HardeningLaws.ClosesObjectTypedRoot` | services/gpt_handler.py:70-71 | a dict whose "type" is "object" has "additionalProperties" afterwards; if it had none, the value is `false` |
| `HardeningLaws.KeepsExistingAdditionalProperties` | services/gpt_handler.py:70-74 | an existing "additionalProperties" is never overwritten: the keys are the same, its value is only visited, and a scalar value stays as it was |
| `HardeningLaws.OtherTypesNotClosed` | services/gpt_handler.py:70-74 | a dict whose "type" is missing, another string or a list such as ["object", "null"] gets no new key, but its values are still visited |
| `HardeningLaws.HardenedKeys` | services/gpt_handler.py:70-72 | the keys after the transform are the old ones in order, followed by "additionalProperties" exactly when the guard held |
| `HardeningLaws.HardenedMember` | services/gpt_handler.py:70-74 | below a transformed node, an old member holds its visited value and the only position past the old members is the flag |
| `HardeningLaws.HardenedElement` | services/gpt_handler.py:75-78 | only under a dict member is a list entered, and then each of its elements is transformed |
| `HardeningLaws.UnreachedUnchanged` | services/gpt_handler.py:72-78 | every node the traversal does not reach comes back unchanged, including the elements of a top-level list and dicts inside a list nested in a list |
| `HardeningLaws.ReachedObjectsClosed` | services/gpt_handler.py:69-78 | every reached dict whose "type" is "object" has "additionalProperties" afterwards |
| `HardeningLaws.NodesPersist` | services/gpt_handler.py:69-79 | nothing is removed: each input node is still at its path, with the same kind; a dict keeps its keys in order and may only gain "additionalProperties" last, a list keeps its length, and a scalar keeps its value |
| `HardeningLaws.RootPersists` | services/gpt_handler.py:69-71 | the root itself is kept in that sense |
| `HardeningLaws.RootClosed` | services/gpt_handler.py:70-71 | a transformed root dict typed "object" has "additionalProperties" |
| `HardeningLaws.NewNodesAreClosingFlags` | services/gpt_handler.py:70-71 | every node the output has and the input lacks is a `false` that was appended last to a reached dict that met the guard |
| `HardeningLaws.HardenedIsClosed` | services/gpt_handler.py:68-78 | after the transform, no reached dict still declares "type": "object" without "additionalProperties" |
| `HardeningLaws.ClosedIsFixedPoint` | services/gpt_handler.py:68-78 | a schema with no open reached dict is left exactly as it is |
| `HardeningLaws.Idempotent` | services/gpt_handler.py:68 | applying the transform to its own output changes nothing ("once without duplication") |
| `HardeningLaws.FixedPointsAreClosed` | services/gpt_handler.py:68-78 | the schemas the transform leaves alone are exactly the closed ones |
| `HardeningLaws.PreservesWellFormed` | services/gpt_handler.py:68-71 | if no dict of the input repeats a key, no dict of the output does |
| `InPlace.Get` | services/gpt_handler.py:70 | `d.get(key)` on a dict's entries finds a value exactly when some entry has the key |
| `InPlace.GetAgrees` | services/gpt_handler.py:70 | `d.get` on the entries agrees with `Lookup` on the JSON the dict stands for |
| `InPlace.Open` | services/gpt_handler.py:70 | the guard decided on a live dict's entries; defined by its body, and its property is the `InPlace.OpenAgrees` row |
| `InPlace.OpenAgrees` | services/gpt_handler.py:70 | the guard decided on the live dict agrees with the guard decided on its JSON |
| `InPlace.AllValidAdd` | services/gpt_handler.py:71 | a value added beside others whose objects it does not share leaves them all a tree, owned by the old owner plus the new value's objects |
| `InPlace.EntriesModelAdd` | services/gpt_handler.py:71 | assigning a new key appends an entry, keeps the keys distinct and the dict a tree, and makes it stand for the JSON with that member appended |
| `InPlace.Dict.constructor` | services/gpt_handler.py:61-63 | builds test schemas, standing in for the dict pydantic produces: a new dict is empty, valid and owns only itself |
| `InPlace.Dict.Add` | services/gpt_handler.py:71 | `d[key] = value` for a key not yet present appends the entry; the dict stays a tree and stands for its old JSON with the new member last |
| `InPlace.List.constructor` | services/gpt_handler.py:61-63 | builds test schemas, standing in for the lists pydantic produces: a new list is empty, valid and owns only itself |
| `InPlace.List.Append` | services/gpt_handler.py:61-63 | builds test schemas (the function itself never appends to a list): appending a value whose objects the list does not own keeps it a tree and makes it stand for its old JSON with that element last |
| `InPlace.AddNoAdditionalProperties` | services/gpt_handler.py:67-79 | it returns the same value it was given; the value then stands for `Harden` of what it stood for; a non-dict is not touched at all; no object outside the schema changes |
| `InPlace.Dict.Harden` | services/gpt_handler.py:69-78 | the dict then stands for `Harden` of its old content; it keeps every entry, with values that are the same objects updated in place, and may only gain one entry at the end |
| `InPlace.Dict.CloseIfOpen` | services/gpt_handler.py:70-71 | `"additionalProperties": false` is appended exactly when the JSON guard holds, and nothing else changes |
| `InPlace.Dict.VisitValues` | services/gpt_handler.py:72-78 | the loop over the items leaves the entries as they are and the dict standing for `VisitMembers` of its old content |
| `InPlace.List.VisitElements` | services/gpt_handler.py:75-78 | the loop over a list value leaves the list's elements as they are (the same objects) and the list standing for `VisitElements` of its old content |
| `InPlace.VisitValue` | services/gpt_handler.py:73-78 | one value of the loop ends up standing for `VisitValue` of its old JSON |
| `InPlace.ExampleHardened` | services/gpt_handler.py:67-79 | on `{"type": "object", "properties": {"p": {"type": "object"}}, "anyOf": [{"type": "object"}]}` the transform closes the root, "p" and the element of "anyOf", and leaves "properties" (no "type") without a flag |
| `InPlace.NewObjectSchema` | services/gpt_handler.py:61-63 | builds a test schema, a new valid dict standing for `{"type": "object"}` |
| `InPlace.NewProperties` | services/gpt_handler.py:61-63 | builds a test schema, a new valid dict standing for `{"p": {"type": "object"}}` |
| `InPlace.NewAnyOf` | services/gpt_handler.py:61-63 | builds a test schema, a new valid list standing for `[{"type": "object"}]` |
| `InPlace.NewTypedRoot` | services/gpt_handler.py:61-63 | builds a test schema, a new valid dict standing for the first two members of that example schema |
| `InPlace.NewExampleSchema` | services/gpt_handler.py:61-63 | builds the whole example test schema from new objects, as a valid tree standing for its JSON |
| `InPlace.Example` | services/gpt_handler.py:61-63 | hardening that schema in place returns a reference to the very dict that was built, which is still a valid tree and then stands for the expected closed schema |
| `InPlace.VisitOne` | services/gpt_handler.py:72-78 | visiting one value of a dict or list changes only that value; the others stand for the same JSON, and the whole stays a tree |

## Left out

- The rest of `services/gpt_handler.py` is not part of this model:
  - the OpenAI client;
  - the prompt builder `get_prompt_to_identify_tool_and_arguments`;
  - the pydantic models `params` and `schema`;
  - `pydantic_model_to_json_schema`, which only calls the modelled function on pydantic's output, and whose only use is commented out;
  - `generate_mongo_query`.
  They are network calls, library calls and string formatting around the schema.
- `services/mcp_server.py`, `app.py`, `config.py`, `seed_db.py` and `make_bundle.py` are not part of this model. They are the server, the web front end, configuration, database seeding and packaging.
- Shared and cyclic schemas are excluded: `Valid()` requires every dict and list to sit at one place in a tree. On a shared dict, Python visits it twice, which changes nothing more because the transform is idempotent. On a cycle that the traversal follows (through dict values and the dict elements of a list value), Python recurses until `RecursionError`. A cycle through a list inside a list, or through a top-level list, is never followed, and the call returns normally. Neither kind of sharing is modelled.
- Python's recursion-depth limit is not modelled, so arbitrarily deep schemas are accepted.
- Numbers are unbounded `int` and `real`. NaN and the infinities are not modelled.
- Dict keys are strings only. Tuples, sets and dict or list subclasses are not modelled as values.
- `InPlace.Dict.Add` models only `d[key] = value` for a key the dict lacks, which is the only assignment the function makes; overwriting a key and deleting one are not modelled. `InPlace.Dict.Add` and `InPlace.List.Append` also require the new value to share no object with the container, so they build trees only.
- The dicts and lists that pydantic's `model_json_schema` builds are not modelled; the example methods build one such schema by hand.
- A Python `list` is an object whose element sequence the function never changes. `List.VisitElements` proves the sequence is unchanged; it models no list mutation because there is none.
- An existing `"additionalProperties"` whose value is a dict is itself transformed, as any other dict value is, because the loop does not skip that key. `HardeningLaws.KeepsExistingAdditionalProperties` therefore states that the value is visited, and that it is unchanged only when it is a scalar.
