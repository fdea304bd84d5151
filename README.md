# Windows Push Notification Services notify platform, modelled in Dafny

This project models the core of Home Assistant's `notify.windows` platform
(`homeassistant/components/notify/windows.py`). The platform sends toast
notifications through Windows Push Notification Services (WNS) and lets
devices register and unregister their push channels over HTTP. It is modelled
in three parts:

- **The registration registry and its HTTP view.** `Registrations.Registry` is
  the dict shared by the view and the service. It maps a channel id to a
  registration record and keeps the dict's insertion order. The delete scan
  and the fan-out send both walk the dict in that order.
  `RegistrationView.View.Post` validates a body against `SUBSCRIPTION_SCHEMA`
  (`Subscription.Validate`) and upserts it. `RegistrationView.View.Delete`
  scans the stored records for a matching `id`. After each change both handlers
  save the registry. When the save fails they undo the change and answer 500.
- **The access-token cache.** `NotificationService.Service` holds `token` and
  `expiry`. `GetToken` refreshes only when the expiry is less than five minutes
  after `now`.
- **Sending.** `send_message` resolves its targets to channel URLs, skipping
  unknown ids (`ChannelsToPost`, specified by `KnownChannels`). It composes the
  toast XML by reassignment and `+=` (`Toast.ComposeBody`, specified by
  `Render(ToastFor(...))`). `Toast.Parse` reads a body back. `ParseRender`
  proves that a body whose parts contain no markup characters gives back
  exactly the launch attribute, texts, hero image and logo it was composed
  from.

Inputs from the environment are explicit parameters:
- the decoded request body: `Option<Json>`, where `None` means the body is not JSON;
- the outcome of saving the registry (`saveSucceeds`);
- the clock (`now`, in seconds);
- the token endpoint's reply (`TokenReply`);
- the validation library's coercions (`Subscription.Validators`: `cv.string`, `cv.url`, `vol.Coerce(int)`).

Outbound effects are returned rather than performed:
- the registry handed to the save (`written`);
- the token request form;
- the body and the channel URLs a send posts to.

The model follows the code where the two could be read differently:
- homeassistant/helpers/config_validation.py is not part of this model. `cv.positive_int` is taken to be coercion to an integer followed by a lower bound of 0, so an expiry of 0 is accepted.
- The schema rejects keys it does not know.
- `DELETE` with a JSON body that is not an object fails on `data.get` inside the handler. It is modelled as `Response.Uncaught`, not as a reply.
- When a `DELETE` save fails, the record is reinserted at the end of the dict. The mapping equals its value before the call, but the key's position moves to the end (`View.Delete`, `!saveSucceeds` case).

## Model

| member | source | states |
|---|---|---|
| `Subscription.Validate` | homeassistant/components/notify/windows.py:46-54 | a body passes exactly when it is an object holding `id` and `channel`, no other key outside `expiry`/`name`, and every value passes its validator; the record then holds exactly the coerced values of the keys given; a rejection names a violation the body really commits |
| `Subscription.RevalidateStored` | homeassistant/components/notify/windows.py:46-54 | a stored record written back as JSON passes the schema again and yields the same record, when the coercions leave their own results unchanged |
| `Registrations.Without` | homeassistant/components/notify/windows.py:229 | popping a key removes exactly that key from the iteration order and keeps the order free of duplicates |
| `Registrations.WithoutMiddle` | homeassistant/components/notify/windows.py:229 | popping a key keeps every other key in its relative order: the keys before it are followed by the keys after it |
| `Registrations.WithoutAbsent` | homeassistant/components/notify/windows.py:229 | popping a key the order does not hold leaves the order unchanged |
| `Registrations.WithoutLast` | homeassistant/components/notify/windows.py:201-204 | popping the key that was just appended restores the previous order |
| `Registrations.FirstMatch` | homeassistant/components/notify/windows.py:218-223 | the result is None exactly when no stored record has the requested `id`; otherwise it is the key of the first such record in iteration order |
| `Registrations.Scan` | homeassistant/components/notify/windows.py:218-223 | the loop with its early `break` returns the first match in iteration order |
| `Registrations.ScanIsKeyLookup` | homeassistant/components/notify/windows.py:188-191 | when every record sits under its own id, scanning the values finds exactly the key a direct lookup would |
| `Registrations.Registry.constructor` | homeassistant/components/notify/windows.py:62-63 | the registry starts as the loaded mapping and its key order |
| `Registrations.Registry.Assign` | homeassistant/components/notify/windows.py:191 | item assignment replaces the record in place for an existing key and appends a new key at the end; nothing else changes |
| `Registrations.Registry.Pop` | homeassistant/components/notify/windows.py:229 | `pop` returns the record and removes exactly its key from the mapping and the order |
| `RegistrationView.RequestedId` | homeassistant/components/notify/windows.py:216-221 | a stored record matches the request exactly when the body has an `id` that is the JSON string of the record's id; any other `id`, or none, matches no record |
| `RegistrationView.DeleteTarget` | homeassistant/components/notify/windows.py:218-227 | DELETE removes the first match unless there is none or its key is the empty string |
| `RegistrationView.IntendedDeleteTarget` | homeassistant/components/notify/windows.py:225-227 | with the `found is None` test the code evidently means, a matching record is always found |
| `RegistrationView.EmptyIdIsNeverUnregistered` | homeassistant/components/notify/windows.py:225-227 | a record registered with id "" passes the schema, is found by the scan, and is still reported as not found |
| `RegistrationView.DeleteTargetIsKeyLookup` | homeassistant/components/notify/windows.py:216-227 | under the id-is-key invariant, DELETE removes the requested key exactly when it is present and not empty |
| `RegistrationView.View.constructor` | homeassistant/components/notify/windows.py:170-173 | the view holds the shared registry object |
| `RegistrationView.View.Post` | homeassistant/components/notify/windows.py:175-207 | invalid JSON and schema failures answer 400 and change nothing; a valid body is upserted under its id, the whole registry is handed to the save, and then either 200 with the record replacing any previous one (others unchanged) or 500 with the mapping and the order restored; the id-is-key invariant is kept |
| `RegistrationView.View.Delete` | homeassistant/components/notify/windows.py:209-227 | invalid JSON answers 400, a non-object body raises, no match (or a match under "") answers 200 "not found" and changes nothing; otherwise exactly the matched key is removed and saved, as stated by `Unregister` |
| `RegistrationView.View.Unregister` | homeassistant/components/notify/windows.py:229-239 | the matched key is popped and the rest is saved; on success 200 with exactly that key gone, on save failure 500 with the mapping equal to its value before the call and the key moved to the end of the order |
| `Toast.ToastFor` | homeassistant/components/notify/windows.py:96-115 | the launch attribute is chosen exactly when `data.launch` is non-empty, the hero image exactly when `data.hero` is, and the logo is `data.logo` whenever the key is present, otherwise the default |
| `Toast.ComposeBody` | homeassistant/components/notify/windows.py:96-126 | building `content`, `launch` and `app_logo` step by step yields the template rendered from those choices |
| `Toast.ParseRender` | homeassistant/components/notify/windows.py:117-126 | a body whose parts do not close the element or attribute they sit in can be read back into exactly those parts |
| `Toast.BodyShowsChoices` | homeassistant/components/notify/windows.py:106-126 | the body posted for plain inputs carries the launch attribute, hero image and logo that `ToastFor` chose, and no others |
| `Toast.NoDataBody` | homeassistant/components/notify/windows.py:100-126 | for a title and message without `<`, a body without data has no launch attribute, no hero image and the default logo |
| `NotificationService.ResolveTargets` | homeassistant/components/notify/windows.py:130-132 | missing or empty targets mean every registration exactly once, in the registry's order; otherwise the given list |
| `NotificationService.KnownChannels` | homeassistant/components/notify/windows.py:134-141 | every channel posted to belongs to a target the registry knows, every known target's channel is posted to, and there are no more posts than targets |
| `NotificationService.KnownChannelsAppend` | homeassistant/components/notify/windows.py:134-142 | posts follow target order: a list in two parts posts the first part's channels, then the second's |
| `NotificationService.AllKnownChannels` | homeassistant/components/notify/windows.py:134-142 | when every target is known, the i-th post goes to the i-th target's channel |
| `NotificationService.FanOutReachesEveryRegistration` | homeassistant/components/notify/windows.py:130-142 | without targets, whether none are given or the list is empty, a send posts once to every registration, in the registry's order |
| `NotificationService.ChannelsToPost` | homeassistant/components/notify/windows.py:134-142 | the send loop, with `continue` for unknown targets, collects exactly `KnownChannels` |
| `NotificationService.Service.constructor` | homeassistant/components/notify/windows.py:77-85 | a new service has no token and expires at construction, so the first call, whenever it comes, refreshes |
| `NotificationService.Service.GetToken` | homeassistant/components/notify/windows.py:144-161 | a request is made exactly when `expiry < now + 5 minutes`; it then stores the returned token and `now + expires_in`; otherwise token and expiry are unchanged; the cached token is returned |
| `NotificationService.Service.FetchThenReuse` | homeassistant/components/notify/windows.py:144-161 | after a call that fetched a token at `t0`, a later call at `t1` makes no request exactly when `t1` is at most `t0 + expires_in - 5 minutes`, and then returns the same token |
| `NotificationService.Service.SendMessage` | homeassistant/components/notify/windows.py:87-142 | the token is obtained first, as `GetToken` states, with the same token request form; the body is the toast for the title (default when absent), message and data; the channels are exactly the known targets' channels in resolved order; the registry is not changed |

## Findings

| source | as written | input that shows it | evidently intended | confidence | as-written member | corrected member |
|---|---|---|---|---|---|---|
| homeassistant/components/notify/windows.py:225 | `if not found` is also true when the matching key is the empty string, so the record stays and the reply is "Registration not found." | POST `{"id": "", "channel": "https://example.com/c"}` (accepted: `cv.string` admits ""), then DELETE `{"id": ""}` | test `found is None`, so a match stored under "" is removed | medium; not executed | `RegistrationView.EmptyIdIsNeverUnregistered` | `RegistrationView.IntendedDeleteTarget` |

`View.Delete` keeps the test as written, so its contract describes the behaviour
the code has. `IntendedDeleteTarget` is the decision the code evidently means.
Its contract proves that every matching record is found.

## Left out

- Outbound HTTP is not performed. The token request and the channel POSTs are returned instead. Their headers are left out: `X-WNS-Type`, `Content-Type`, and the `Bearer` prefix around the returned token.
- Failures of the token endpoint are left out: an HTTP error, or a reply without `access_token` or `expires_in`. They raise out of `get_token` and `send_message`. The model's reply is always complete.
- Persistence (`load_json`, `save_json`) and its scheduling through `hass.async_add_job` are I/O. A save is one success flag. Failures other than `HomeAssistantError` propagate out of the handler and are not modelled.
- `await request.json()` and the aiohttp view plumbing are framework code. The body arrives already decoded. JSON numbers are integers: floats are not modelled.
- The behaviour of `cv.string`, `cv.url` and `vol.Coerce(int)` belongs to a foreign library. These are parameters. The text of `humanize_error` is replaced by the violated constraint. When a body breaks several constraints, voluptuous reports them together. The model names one.
- The registrations file may hold values that POST could never store: null values, records without `id`, and records under a key other than their id. The model's registry holds only well-formed records. `KeysMatchIds` is kept but not assumed.
- `send_message`'s `data` values are modelled as strings, with truthiness meaning non-empty. The `str()` rendering and truthiness of other value types are not modelled.
- `ATTR_TITLE_DEFAULT` is defined in homeassistant/components/notify/__init__.py, which is not part of this model. Its value "Home Assistant" is used as the default title.
- `NotificationService.Service.GetToken`: the new expiry is `now + expires_in` at the same instant as the comparison. The source reads the clock a second time after the request. Time is whole seconds, not `datetime`'s microseconds.
- `NotificationService.Service.SendMessage`: a channel POST that raises leaves `send_message` at once, and the remaining targets get no post. The returned channel list assumes every post is made.
- Logging of unknown targets, `print(body)`, `get_service` wiring and `PLATFORM_SCHEMA` are side channels and configuration.
- Concurrent requests on the shared registry are out of scope. Each handler runs atomically.
