# gcemeta in Dafny

This project models the Rust crate `gcemeta`, a client for the Google Compute
Engine metadata service. An instance asks the service at
`http://169.254.169.254/computeMetadata/v1/<path>` about itself: its project,
zone, hostname and attributes. Setting the `GCE_METADATA_HOST` environment
variable sends the requests to another host.

The model covers:

- **Errors** (`src/error.rs`): the error kinds and the `Error` wrapper, the
  conversions into `Error`, the `kind` / `into_kind` accessors, and the
  `Display` messages.
- **Text** (`src/metadata.rs:247-279`): `trim`, `lines`, `parse_instance_name`,
  `parse_zone`, and the error mapping of `json_array`. This module also holds
  the models of Rust's `str::trim` and `str::split` that those functions are
  built from.
- **Fetch** (`src/metadata.rs:151-245`):
  - the host selection and URL of `get_meta`;
  - how `get_meta` maps a response to a result, and the 404 → `None` mapping
    of `get`;
  - every uncached getter;
  - the default account of `scopes`.

  The HTTP exchange is a parameter: a function from the request URL to what
  sending it produced.
- **Cell** (`src/metadata.rs:104-149, 176-185`): the memo cell that
  `impl_cached_meta_fn!` generates for `project_id`, `numeric_project_id` and
  `instance_id`.
  - It has a state tag (uninitialised, initialising, initialised) and a cache
    slot.
  - It is modelled as pure step functions: the compare-and-swap, the
    claimant's completion, a waiter's look, and a whole call.
  - It is also modelled as the class `MetaCell`. The class has `state` and
    `cache` fields, and its methods are proved to follow the step functions.
  - Lemmas cover runs of calls made one after another.
- **Detect** (`src/metadata.rs:45-102`): the decision in `test_on_gce` and its
  three probes, `has_meta_header`, `has_target_ip` and `running_on_gce`.
  These inputs are parameters:
  - the probe replies;
  - the resolved addresses;
  - the order in which the probes answer;
  - whether the second answer arrives within the timeout;
  - the platform;
  - the DMI product file.

Whitespace is the set that Rust's `char::is_whitespace` uses, which is the
Unicode `White_Space` property: 25 code points.
`HttpResponse` holds a status code as the HTTP library represents it, a
number from 100 to 999.

### Behaviour of the code worth knowing

The model follows the code in each of these cases.

- **Empty `GCE_METADATA_HOST`.** The comment at `src/metadata.rs:18-19` says an
  empty value falls back to the default IP. The code (`env::var(..).unwrap_or_else`,
  line 152) falls back only when the variable is unset or not Unicode.
  `Fetch.MetadataHost` uses any set value, the empty string included.
- **`test_on_gce` is asymmetric.** Whatever answers first decides on its own;
  the second answer counts only when the DMI check passes (lines 59-60). So off
  GCE hardware, the same two probe results give opposite answers depending on
  which arrives first (`Detect.ArrivalOrderMatters`). The first `recv` has no
  timeout, so it fails only when both probe threads end without sending.
- **A waiter gets `Uninitialized`, not the fetch's error.** A caller that
  waited for another caller's fetch, and finds the cell reset, gets the
  `Uninitialized` error; the error of the failed fetch goes only to the caller
  that fetched (lines 128-131, 136-137).
- **`lines` is modelled as splitting on `'\n'`.** Rust's `str::lines` also
  drops a `'\r'` before each `'\n'` and does not yield a final empty line. Both
  differences disappear once each line is trimmed and empty lines are dropped,
  so `Text.Lines` splits on `'\n'` and then trims and filters.

## Model

| member | source | states |
|---|---|---|
| `Errors.FromKind` | src/error.rs:63-67 | wrapping a kind gives an error whose `kind` and `into_kind` both return that kind |
| `Errors.KindRoundTrip` | src/error.rs:24-31 | `kind`/`into_kind` after wrapping give back the kind, and wrapping the kind of an error gives back the error |
| `Errors.FromTransport` | src/error.rs:51-55 | a transport error becomes an `HttpRequest` error carrying it |
| `Errors.FromStatus` | src/error.rs:57-61 | a status code becomes an `HttpResponse` error carrying that code |
| `Errors.StatusDigits` | src/error.rs:43 | a status code prints as three decimal digits that read back as the code |
| `Errors.Display` | src/error.rs:34-47 | the message of each kind: the fixed `Uninitialized` text, `"http request error: "` + the cause, `"http response status code error: "` + the code's three digits + a space + the reason phrase, `"metadata parse error: "` + the tag |
| `Errors.DisplayShowsKind` | src/error.rs:37-45 | the message tells which of the four kinds the error is |
| `Errors.DisplayInjective` | src/error.rs:37-45 | two errors with the same message are the same error |
| `Text.FirstNonWhitespace` | src/metadata.rs:248 | the first position, from a start, that does not hold whitespace: everything skipped is whitespace |
| `Text.EndOfContent` | src/metadata.rs:248 | the end of the text once trailing whitespace is dropped: everything dropped is whitespace, and the last character kept is not |
| `Text.Trim` | src/metadata.rs:247-249 | the result neither starts nor ends with whitespace and is no longer than the input |
| `Text.TrimIsSlice` | src/metadata.rs:247-249 | the result is a contiguous slice of the input with only whitespace before and after it |
| `Text.TrimKeepsCharacters` | src/metadata.rs:247-249 | every character of the result comes from the input |
| `Text.TrimOfPadded` | src/metadata.rs:247-249 | trimming any whitespace padding around a trimmed text gives back that text |
| `Text.TrimOfTrimmed` | src/metadata.rs:247-249 | a text that neither starts nor ends with whitespace is left unchanged |
| `Text.TrimIdempotent` | src/metadata.rs:247-249 | trimming twice is trimming once |
| `Text.TrimExamples` | src/metadata.rs:342-345 | `trim("") == ""` and `trim(" \r\n\tabc \r\n\t") == "abc"` |
| `Text.SplitOn` | src/metadata.rs:265 | `split` gives at least one piece, no piece holds the separator, and joining the pieces with it gives back the input |
| `Text.SplitJoin` | src/metadata.rs:265 | splitting pieces joined with the separator gives back the pieces: split and join are inverse |
| `Text.SplitAppend` | src/metadata.rs:274 | splitting `a + sep + b` is splitting `a` followed by splitting `b` |
| `Text.FirstPiece` | src/metadata.rs:265-266 | the first piece of a split is the text before the first separator |
| `Text.LastPiece` | src/metadata.rs:274-275 | the last piece of a split is the text after the last separator |
| `Text.Lines` | src/metadata.rs:251-257 | every element is non-empty and trimmed |
| `Text.KeepLinesAreLines` | src/metadata.rs:254-256 | the pieces kept after trimming and dropping empty ones are all non-empty and trimmed |
| `Text.LinesHaveNoNewline` | src/metadata.rs:251-257 | no line holds a newline |
| `Text.LinesAppend` | src/metadata.rs:251-257 | the lines of `a + "\n" + b` are the lines of `a` followed by the lines of `b`: order is kept |
| `Text.LinesOfOneLine` | src/metadata.rs:251-257 | a text without a newline gives its trimmed self, or nothing when that is empty |
| `Text.LinesOfPaddedLine` | src/metadata.rs:254-255 | a line with leading whitespace gives just its trimmed content |
| `Text.LinesOfTrimmedLine` | src/metadata.rs:251-257 | a non-empty, already trimmed text without a newline is exactly one line, itself |
| `Text.LinesOfEmpty` | src/metadata.rs:349 | the empty text has no lines |
| `Text.LinesExampleFull` | src/metadata.rs:350-358 | the text `"\na\n\tb\n"` has the lines `"a"` and `"b"`, in that order |
| `Text.LinesExamples` | src/metadata.rs:347-359 | `lines("") == []` and `lines("\na\n\tb\n") == ["a", "b"]` |
| `Text.JsonArray` | src/metadata.rs:259-261 | a decoded array passes through; a decoding failure is `MetadataParse("json array")` |
| `Text.FirstSegmentUnique` | src/metadata.rs:265-266 | there is only one text before the first separator |
| `Text.LastSegmentUnique` | src/metadata.rs:274-275 | there is only one text after the last separator |
| `Text.ParseInstanceName` | src/metadata.rs:263-270 | succeeds exactly when the text before the first `.` is non-empty, and gives that text; otherwise fails with `MetadataParse("instance name")` |
| `Text.ParseZone` | src/metadata.rs:272-279 | succeeds exactly when the text after the last `/` is non-empty, and gives that text; otherwise fails with `MetadataParse("zone")` |
| `Text.ParseInstanceNameBefore` | src/metadata.rs:263-270 | a non-empty name without `.`, followed by text beginning with `.`, parses to that name |
| `Text.ParseZoneAfter` | src/metadata.rs:272-279 | any prefix, then `/`, then a non-empty zone without `/`, parses to that zone |
| `Text.InstanceNameExamples` | src/metadata.rs:361-373 | `"abc.c.ef.internal"` gives `"abc"`; `""` gives `MetadataParse("instance name")` |
| `Text.ZoneExamples` | src/metadata.rs:375-387 | `"projects/123/zones/asia-northeast1-a"` gives `"asia-northeast1-a"`; `""` gives `MetadataParse("zone")` |
| `Fetch.MetadataHost` | src/metadata.rs:152 | the host is the variable's value when set, else `169.254.169.254` |
| `Fetch.UrlRoundTrip` | src/metadata.rs:153 | host and suffix can be read back from the request URL `http://<host>/computeMetadata/v1/<suffix>` |
| `Fetch.DefaultUrl` | src/metadata.rs:152-153 | with the variable unset, the URL names `169.254.169.254` and the suffix |
| `Fetch.GetMeta` | src/metadata.rs:151-162 | succeeds exactly on a 200 response with a decodable body, and gives the body; another status `c` gives `HttpResponse(c)`; a failed exchange gives `HttpRequest` |
| `Fetch.AbsentOnNotFound` | src/metadata.rs:170-173 | `HttpResponse(404)` becomes `Ok(None)`, a value `v` becomes `Ok(Some(v))`, and every other error passes through unchanged |
| `Fetch.Get` | src/metadata.rs:169-174 | `Ok(None)` exactly when the service answers 404, `Ok(Some(v))` exactly when `get_meta` gives `v`, and an error exactly when `get_meta` fails other than with 404, that error being `get_meta`'s |
| `Fetch.TrimmedValue` | src/metadata.rs:187-202 | fails as `get_meta` fails; otherwise gives the trimmed body |
| `Fetch.InternalIp` | src/metadata.rs:187-190 | the trimmed body from the internal-IP path; an error exactly when `get_meta` fails, and then `get_meta`'s error |
| `Fetch.ExternalIp` | src/metadata.rs:192-195 | the trimmed body from the external-IP path; an error exactly when `get_meta` fails, and then `get_meta`'s error |
| `Fetch.Hostname` | src/metadata.rs:197-202 | the trimmed body from the hostname path; an error exactly when `get_meta` fails, and then `get_meta`'s error |
| `Fetch.InstanceTags` | src/metadata.rs:204-207 | a fetch error passes through; an undecodable body is `MetadataParse("json array")`; otherwise the decoded list |
| `Fetch.InstanceName` | src/metadata.rs:209-212 | the first `.`-segment of the trimmed hostname: non-empty, with no `.`; a hostname starting with `.` or empty is `MetadataParse("instance name")` |
| `Fetch.Zone` | src/metadata.rs:214-217 | the last `/`-segment of the trimmed body: non-empty, with no `/`; otherwise `MetadataParse("zone")` |
| `Fetch.LinesValue` | src/metadata.rs:219-227 | fails as `get_meta` fails; otherwise gives the body's non-empty trimmed lines |
| `Fetch.InstanceAttributes` | src/metadata.rs:219-222 | the body's lines from the instance attributes path; an error exactly when `get_meta` fails, and then `get_meta`'s error |
| `Fetch.ProjectAttributes` | src/metadata.rs:224-227 | the body's lines from the project attributes path; an error exactly when `get_meta` fails, and then `get_meta`'s error |
| `Fetch.InstanceAttributeValue` | src/metadata.rs:229-232 | `Ok(None)` exactly when the attribute's URL answers 404; `Ok(Some(v))` exactly when `get_meta` gives `v`; any other error of `get_meta` passed on |
| `Fetch.ProjectAttributeValue` | src/metadata.rs:234-237 | `Ok(None)` exactly when the attribute's URL answers 404; `Ok(Some(v))` exactly when `get_meta` gives `v`; any other error of `get_meta` passed on |
| `Fetch.ScopesAccount` | src/metadata.rs:243 | the given account, or `"default"` when none is given |
| `Fetch.Scopes` | src/metadata.rs:242-245 | the body's lines from the account's scopes path; an error exactly when `get_meta` fails, and then `get_meta`'s error |
| `Fetch.ScopesDefaultAccount` | src/metadata.rs:239-245 | no account and the account `"default"` give the same result |
| `Cell.Call` | src/metadata.rs:120-141 | a call fetches exactly when the cell is uninitialised. Success stores and returns the trimmed value and leaves the cell initialised. Failure returns the error and leaves the cell as it was, so it can be retried. An initialised cell returns its cache unchanged. An initialising cell makes the caller wait. The invariant is kept |
| `Cell.PollSeesCache` | src/metadata.rs:133-139 | a waiter waits only while the state is initialising; then it gets the cached value, or `Uninitialized` when the cell was reset |
| `Cell.WaiterAfterClaimant` | src/metadata.rs:121-139 | while one caller fetches, a second one neither claims nor changes the cell; afterwards it sees the first's value, or `Uninitialized` if that fetch failed |
| `Cell.Run` | src/metadata.rs:120-141 | a run of calls gives one step per call |
| `Cell.FilledIsFinal` | src/metadata.rs:140 | once filled, no later call fetches or changes the cell, and every call returns the cached value |
| `Cell.FirstSuccess` | src/metadata.rs:122-131 | the position of the first successful fetch: every fetch before it failed |
| `Cell.RunCons` | src/metadata.rs:120-141 | the first call uses the fresh state and the rest continue from the state it leaves |
| `Cell.FetchesUntilFirstSuccess` | src/metadata.rs:117-141 | for sequential calls on a fresh cell, a call fetches exactly when every earlier fetch failed |
| `Cell.FailuresReturnTheirError` | src/metadata.rs:128-131 | before the first success, each call returns the error of its own fetch |
| `Cell.SuccessIsShared` | src/metadata.rs:123-140 | from the first success on, every call returns that fetch's trimmed value |
| `Cell.FetchCountUntilSuccess` | src/metadata.rs:117-141 | sequential calls fetch once per failure before the first success, plus once for it |
| `Cell.SecondCallUsesCache` | src/metadata.rs:120-141 | on a fresh cell whose fetch succeeds, the first call fetches and returns the trimmed value, the second returns it without fetching |
| `Cell.MetaCell.constructor` | src/metadata.rs:116-117 | a new cell is uninitialised with an empty cache |
| `Cell.MetaCell.CompareAndSwap` | src/metadata.rs:121 | returns the old state and moves uninitialised to initialising |
| `Cell.MetaCell.Finish` | src/metadata.rs:122-131 | success stores the trimmed value, sets initialised and returns the value; failure resets the state, keeps the cache and returns the error |
| `Cell.MetaCell.Look` | src/metadata.rs:134-137 | one look of a waiter is `Poll` of the current contents |
| `Cell.MetaCell.Get` | src/metadata.rs:120-142 | the method's new state, outcome and whether it fetched are those of `Call` for the `get_meta` result on the cell's path; the invariant is kept |
| `Detect.HeaderIndex` | src/metadata.rs:67 | finds the first header whose name matches, ignoring ASCII case |
| `Detect.HeaderGet` | src/metadata.rs:67 | the value of the first header of that name, or `None` exactly when there is none |
| `Detect.HasMetaHeader` | src/metadata.rs:63-74 | false when the request failed; otherwise true exactly when the first header named `Metadata-Flavor` in any case has the value `Google` |
| `Detect.FirstFlavorHeaderDecides` | src/metadata.rs:66-70 | wherever the first `Metadata-Flavor` header stands, it alone decides, and it counts exactly when its value is `Google` |
| `Detect.NoFlavorHeader` | src/metadata.rs:69 | a reply without the header is negative |
| `Detect.MetaHeaderExamples` | src/metadata.rs:67-68 | the header name matches in any case; the value `google` does not match `Google`; other headers before it do not matter; a later `Google` does not override an earlier other value |
| `Detect.AnyIs` | src/metadata.rs:83 | `any(x == addr)` is true exactly when the address is in the list |
| `Detect.HasTargetIp` | src/metadata.rs:76-86 | true exactly when resolution succeeded and `169.254.169.254:0` is among the addresses |
| `Detect.RunningOnGce` | src/metadata.rs:88-102 | true only on Linux, with a readable product file whose trimmed content is `Google` or `Google Compute Engine` |
| `Detect.ProductNamePadded` | src/metadata.rs:92-95 | whitespace around the product name does not matter, and the name must otherwise match exactly |
| `Detect.ProductNameExamples` | src/metadata.rs:88-102 | `"Google Compute Engine\n"` on Linux is GCE; off Linux, or without the file, it is not |
| `Detect.TestOnGce` | src/metadata.rs:45-61 | a set variable gives true with no probes. Otherwise the answer is `first` or else both `dmi` and `second`, with a missing answer counting as false. DMI is read only when the first answer is not true. The second answer is awaited only when DMI passes |
| `Detect.OrderIrrelevantOnGceHardware` | src/metadata.rs:59-60 | when DMI passes, the answer is the OR of the two probes in either order |
| `Detect.FirstArrivalDecidesElsewhere` | src/metadata.rs:59-60 | when DMI fails, the answer is the result of whichever probe answered first |
| `Detect.ArrivalOrderMatters` | src/metadata.rs:59-60 | the same probe results in the opposite order give opposite answers, so the rule is asymmetric |
| `Detect.LateSecondCountsAsFalse` | src/metadata.rs:60 | a second answer missing the five-second timeout counts as false |
| `Detect.ProbeOnGce` | src/metadata.rs:45-102 | over the raw probe inputs: "on GCE" needs the variable or a positive probe; a positive first-arriving probe is enough; without DMI, the first-arriving probe decides |

## Left out

- HTTP: request building, the `User-Agent` and `Metadata-Flavor` request
  headers, and the two-second connect timeout (`src/metadata.rs:25-38,
  153-156`). These are foreign calls. A request is a URL, and its outcome is
  given by a function parameter.
- Threads, `mpsc` channels and the five-second `recv_timeout` in `test_on_gce`
  (`src/metadata.rs:50-86`). This is concurrency. The probe results, their
  arrival order and whether the second arrives in time are inputs.
- DNS resolution of `metadata.google.internal` and reading
  `/sys/class/dmi/id/product_name`. This is OS and network I/O. The resolved
  addresses and the file contents are inputs, and so is the operating system.
- The atomic compare-and-swap, `static mut` and memory ordering of the memo
  cell. Each step is modelled as atomic and callers are taken one at a time.
  Single-flight across threads is not proved.
- The waiter's busy-spin loop (`src/metadata.rs:133-139`). `MetaCell.Get`
  returns `Waiting` instead of spinning, and `MetaCell.Look` models one
  iteration of the loop. A loop that waits for another thread cannot terminate
  in a sequential model.
- The JSON decoder behind `json_array`. It is a parameter, and only a decoding
  failure mapping to `MetadataParse("json array")` is modelled.
- The process-wide memo of `on_gce` (`lazy_static` `ON_GCE`,
  `src/metadata.rs:14-16, 41-43`). It computes `test_on_gce` once. The lazy
  global is not modelled.
- The text of a transport error and the reason phrase of a status code in
  `Display`. Both come from the HTTP library; the reason phrase is a parameter.
- IPv6 flow information and scope id in resolved addresses. The model's
  IPv6 addresses carry only their segments. Since the target is an IPv4
  address, no IPv6 address equals it either way.
- `numeric_project_id` and `instance_id` are the same `MetaCell` with
  different paths. They are not instantiated separately.
- `src/lib.rs` (re-exports) and the example programs (they only print), which
  are not part of this model.
