# veda-python-client, modelled in Dafny

This project models the core of the Python client for the Veda platform:

- the data model in `veda_client/models.py`:
  - a `ValueItem` is data, type and language;
  - an `Individual` is a URI plus a dict from property keys to lists of value items;
  - both convert to and from their JSON dicts;
- the helpers in `veda_client/utils.py`: the query-string builder, `create_individual`, `create_value_item` and `extract_values`;
- the decision logic of `VedaClient` in `veda_client/client.py`:
  - how a response status becomes a result or an exception;
  - which ticket a call sends, and when it raises `VedaAuthError` before sending anything;
  - what `authenticate` stores;
  - which optional arguments reach a request body. Some are tested with `is not None`, so 0 and False are sent. Others are tested for truthiness, so they are not.

The model and its proofs are split by module:

| module | file | what it holds |
|---|---|---|
| `Wrappers` | `wrappers.dfy` | `Option` and `Result` |
| `Assoc` | `assoc.dfy` | a Python `dict` with string keys, as an insertion-ordered association list |
| `Json` | `json.dfy` | JSON values, Python truthiness, Python `in` and `d[k]` on them |
| `Text` | `text.dfy` | decimal text of integers (`str`, `int`), `str.join`, counting a separator |
| `Models` | `models.dfy` | `ValueItem` (a datatype) and `Individual` (a class whose methods update its `properties` in place) |
| `Utils` | `utils.dfy` | the helpers of `utils.py` |
| `Payload` | `payload.dfy` | request dicts built by a literal and guarded insertions |
| `Client` | `client.dfy` | `_handle_response`, ticket resolution, the request of each call, `VedaClient` |

Dict insertion order is kept throughout:

- assigning an existing key keeps its position;
- a new key goes to the end;
- `del` closes the gap.

So the order of keys in every dict the model produces is the order Python produces.

The HTTP transport is not modelled. A call builds a `Request`: the verb, the endpoint below the base URL, and the parameters or body. The call also receives the transport's `Response` (status, body parsed as JSON or None, raw text) as a parameter.

## Model

| member | source | states |
|---|---|---|
| Models.ValueItem.FromDict | veda_client/models.py:42-46 | each field is the record's entry under "data", "type" or "lang", and None when the key is missing |
| Models.ValueItem.ToDict | veda_client/models.py:55-63 | "data" and "type" come first and always; "lang" is present exactly when the language is truthy; there is no other key (3 entries or 2) and the keys are unique |
| Models.ValueItemRoundTrip | veda_client/models.py:42-63 | `from_dict(to_dict(v))` is `v` with a falsy language replaced by None, and that item has the same `to_dict` |
| Models.DecodeValues | veda_client/models.py:99 | a list of records decodes exactly when every element is a dict, element by element through `ValueItem.from_dict` |
| Models.ValuesRoundTrip | veda_client/models.py:99-113 | decoding the encoded list of items gives the items with falsy languages dropped |
| Models.Individual.constructor | veda_client/models.py:79-80 | stores the URI, and the given properties or an empty dict |
| Models.Individual.FromDict | veda_client/models.py:93-101 | succeeds exactly when the record is a dict and `DecodeProperties` of it succeeds (see ListEntriesSome); the URI is the "@" entry or None; the properties are those of `DecodeProperties` |
| Models.ListEntriesSome | veda_client/models.py:96-99 | a record reads exactly when every list entry other than "@" holds only dicts |
| Models.DecodeMatchesListEntries | veda_client/models.py:94-99 | for a dict, the loop of `from_dict` gives the reference definition: the list entries other than "@", in order, each decoded |
| Models.ListEntriesLookup | veda_client/models.py:96-99 | per key: a list entry other than "@" is kept with its decoded items; any other entry is dropped |
| Models.ListEntriesKeys | veda_client/models.py:96-99 | the decoded properties only have keys of the record, and they are unique when the record's are |
| Models.Individual.ToDict | veda_client/models.py:110-115 | "@" is the first key; when no property is named "@", the dict is "@" followed by every property in order, each as its encoded list |
| Models.EncodeShape | veda_client/models.py:110-115 | `to_dict` assigns the encoded properties after "@" with no overwriting, one entry per property |
| Models.IndividualRoundTrip | veda_client/models.py:93-115 | `from_dict(to_dict(ind))` gives back the URI and every property, in order, with falsy languages dropped, when no property is named "@" |
| Models.Individual.GetProperty | veda_client/models.py:127 | the stored list for a present key, [] for a missing one |
| Models.Individual.GetFirstValue | veda_client/models.py:139-140 | the first item's data, and None for a missing key or an empty list |
| Models.Individual.SetProperty | veda_client/models.py:150-156 | the key is assigned what `Convert` keeps of the values; no other key changes; an existing key keeps its place and a new one is appended |
| Models.ConvertItems | veda_client/models.py:152-154 | a list of `ValueItem` objects is stored as it is |
| Models.ConvertSkipsOthers | veda_client/models.py:152-156 | values that are neither a `ValueItem` nor a dict are skipped |
| Models.Individual.AddValue | veda_client/models.py:168-171 | the new item is appended to the key's list, created empty when missing; no other key changes |
| Models.Individual.RemoveProperty | veda_client/models.py:180-181 | the key is gone, nothing else changes, and a missing key leaves the dict as it was |
| Assoc.Put | veda_client/models.py:150 | after `d[k] = v`, looking `k` up gives `v` and `k` keeps its position |
| Assoc.PutKeys | veda_client/models.py:150 | `d[k] = v` keeps the key order for an existing key and appends a new key; keys stay unique |
| Assoc.PutOther | veda_client/models.py:150 | `d[k] = v` leaves every other key's value unchanged |
| Assoc.PutPut | veda_client/models.py:150-156 | assigning a key twice is the same as assigning it the second value once |
| Assoc.Delete | veda_client/models.py:181 | `del d[k]` removes the one entry of a present key and keeps the order of the others |
| Assoc.DeleteUnique | veda_client/models.py:181 | after `del d[k]` the keys are still unique and `k` is absent |
| Assoc.DeleteOther | veda_client/models.py:181 | `del d[k]` leaves every other key's value unchanged |
| Assoc.PutAllFresh | veda_client/models.py:112-113 | assigning keys that are all new, each once, appends them in order |
| Assoc.PutAllPrefix | veda_client/models.py:110-113 | keys assigned before the loop keep their places at the front |
| Utils.QueryPart | veda_client/utils.py:37-42 | a string value gives `('field'=='value')` with nothing escaped; an integer gives `('field'==str(n))` unquoted |
| Utils.PartValue | veda_client/utils.py:37-42 | every part is "('", the field, "'==", the value and ")": a string value in single quotes as it is, an integer as text that `int()` reads back to it |
| Utils.BuildQueryString | veda_client/utils.py:34-45 | the loop's result is the parts of the conditions, in order, joined by " && " |
| Utils.QueryEmpty | veda_client/utils.py:34-45 | the query string is empty exactly when there are no conditions |
| Utils.PartCount | veda_client/utils.py:39-42 | the quoting of a part adds no " && ": only the field and a string value can hold one |
| Utils.QuerySeparators | veda_client/utils.py:45 | n conditions give n - 1 separators plus those inside the fields and string values |
| Utils.QuerySeparatorsExact | veda_client/utils.py:45 | when no field or value holds " && ", the query holds exactly n - 1 of them |
| Text.IntToString | veda_client/utils.py:42 | `str(n)` of an integer: decimal digits, with a leading "-" exactly when n is negative, and no leading zero except in "0" itself |
| Text.IntToStringRoundTrip | veda_client/utils.py:42 | reading the text `str(n)` back with `int` gives n, for every integer n |
| Text.ParseInt | veda_client/client.py:711 | `int(text)` succeeds exactly on an optional sign followed by at least one digit, and gives the signed decimal value |
| Text.JoinLength | veda_client/utils.py:45 | `sep.join(parts)` is as long as the parts together plus one separator between each two neighbours |
| Json.Truthy | veda_client/models.py:60 | the falsy values are exactly None, False, 0, "", [] and {} |
| Utils.CreateIndividual | veda_client/utils.py:59-64 | a fresh individual with the URI, holding each key, in order, with what `set_property` makes of its list |
| Utils.CreatedLookup | veda_client/utils.py:61-62 | per key, the created individual holds exactly what `set_property` makes of that key's list |
| Utils.CreateValueItem | veda_client/utils.py:79 | the item holds the given data, type and language, and its round trip keeps the language exactly when it is truthy |
| Utils.AddValueExtracts | veda_client/models.py:168-171 | after `add_value`, `extract_values` of the key is the old data followed by the new data |
| Utils.ExtractValues | veda_client/utils.py:93 | the data of each item of the property, in order; [] for a missing key; its head is `get_first_value` |
| Json.IsSubstring | veda_client/client.py:96 | `"id" in s` on a string result: a scan of the positions of `s` |
| Json.IsSubstringOccurs | veda_client/client.py:96 | the scan holds exactly when the needle starts at some position of the string |
| Json.Contains | veda_client/client.py:96 | `"id" in result` raises TypeError on None, a bool or a number, and tests the keys of a dict |
| Json.Subscript | veda_client/client.py:97 | `result["id"]` succeeds exactly on a dict holding the key, and gives its value |
| Client.HandleResponse | veda_client/client.py:52-69 | 200 succeeds, with the JSON body or {"content": text}; 472, 473 and 400 raise the auth, response and request errors; 500 and above a server error; any other status a plain VedaError |
| Client.ResolveTicket | veda_client/client.py:181-185 | the explicit ticket is used whenever it is not None, the stored one otherwise; a falsy result raises the auth error |
| Client.EmptyTicketNoFallback | veda_client/client.py:181-185 | an explicit empty ticket raises the auth error even when a ticket is stored |
| Client.ExplicitTicketWins | veda_client/client.py:181-185 | a truthy explicit ticket is sent whatever is stored |
| Payload.AssembleLookup | veda_client/client.py:193-207 | per field of a request dict: its value when its test passes, no such key otherwise |
| Payload.AssembleAbsent | veda_client/client.py:189-207 | a key that no field names is never sent |
| Client.AuthParamsContents | veda_client/client.py:83-89 | `authenticate` sends login and password always, and the secret only when it is truthy |
| Client.QueryBodyContents | veda_client/client.py:189-192 | `query` always sends the ticket and the query |
| Client.QueryBodyTruthy | veda_client/client.py:194-197 | sort and databases are sent only when truthy |
| Client.QueryBodyOptional | veda_client/client.py:198-207 | reopen, from, top, limit and trace are sent whenever they are not None, 0 and False included |
| Client.WriteBodyContents | veda_client/client.py:316-328 | a write call sends its mandatory entries; prepare_events and assigned_subsystems whenever not None; event_id and transaction_id only when truthy |
| Client.ArgJson | veda_client/client.py:311-314 | an `Individual` is sent as its `to_dict()`, a dict as it is |
| Client.ArgsJson | veda_client/client.py:366-370 | one entry per argument, in order: an `Individual` as its `to_dict()`, a dict as it is |
| Client.VedaClient.constructor | veda_client/client.py:34-35 | no ticket and no user URI are stored |
| Client.VedaClient.Authenticate | veda_client/client.py:83-100 | sends the assembled parameters; a status error propagates; TypeError is raised exactly when the result is None, a bool or a number, or a list or string for which `"id" in result` holds; a dict holding "id" stores the ticket and user URI, and otherwise nothing changes |
| Client.VedaClient.IsTicketValid | veda_client/client.py:112-124 | a missing ticket raises the auth error before any request; 200 gives the JSON body, and a body that is not JSON raises; any other status gives False |
| Client.VedaClient.Query | veda_client/client.py:181-210 | with a resolved ticket, posts the assembled body and returns the handled response; otherwise the auth error and no request |
| Client.VedaClient.PutIndividual | veda_client/client.py:302-331 | with a resolved ticket, puts the ticket, the individual as JSON and the options; otherwise the auth error and no request |
| Client.VedaClient.PutIndividuals | veda_client/client.py:356-387 | as `put_individual`, with the list of individuals converted one by one |
| Client.VedaClient.RemoveIndividual | veda_client/client.py:412-435 | with a resolved ticket, puts the ticket, the URI and the options; otherwise the auth error and no request |
| Client.VedaClient.EditIndividual | veda_client/client.py:462-606 | `remove_from_individual`, `set_in_individual`, `add_to_individual`: the ticket, URI, individual and options, to that endpoint |
| Client.VedaClient.GetOperationState | veda_client/client.py:700-715 | sent without a ticket; 200 gives the text read as an integer, or the response error when it is not one; any other status raises what `_handle_response` raises |

## Left out

- The HTTP transport, `base_url` and URL building are not modelled. A call yields a `Request` and receives a `Response`.
- Exception messages are not modelled. Only the kind of exception is.
- `hash_password` in `utils.py` is not modelled. Hashing is a foreign call.
- `get_ticket_trusted`, `get_individual`, `get_individuals`, `get_rights`, `get_rights_origin` and `get_membership` are not modelled. They repeat the ticket prologue and the response handling that the model covers.
- JSON numbers are integers only. Floats are not modelled.
- Utils.BuildQueryString: covers string and integer values only. Python writes any other value with `str()` (floats, `True`, `None`, lists), which is not modelled.
- Text.ParseInt: takes an optional ASCII sign and ASCII decimal digits only. Python's `int()` also accepts surrounding (Unicode) whitespace, digit-group underscores and any Unicode decimal digit (such as "４２" or "٤٢"), and recent Python versions reject texts of more than 4300 digits. So `get_operation_state` is modelled as raising on the former, where Python accepts them, and as succeeding on the latter, where Python raises ValueError.
- Models.IndividualRoundTrip: assumes no property is named "@". When one is, `to_dict` overwrites the URI with that property's list.
- Models.Individual.constructor: stores the properties as a value. In Python `properties or {}` keeps the caller's dict itself when it is non-empty, so later `set_property`, `add_value` and `remove_property` calls also change the caller's dict; an empty dict is replaced by a fresh one, whose changes the caller does not see. That aliasing is not modelled.
- Models.Individual.GetProperty: returns the list as a value. In Python the caller receives the stored list object itself, so appending to it changes the individual. That aliasing is not modelled.
- Models.Individual.SetProperty: the stored `ValueItem` values are values. In Python they are objects shared with the caller.
- Models.Individual.FromDict: `data.get("@")` on a record that is not a dict raises AttributeError. Such a record yields None here, as does a list element that is not a dict.
- Client.VedaClient.Authenticate: any exception outside the `VedaError` hierarchy is the single kind `RuntimeFault`, not the specific Python type.
- Client.VedaClient.IsTicketValid: returns the JSON body as it is. Python's annotation says `bool`, but nothing checks it.
- Utils.CreateIndividual: requires unique keys in the properties, which any Python dict has.
