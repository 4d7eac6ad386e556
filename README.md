# Browser tool core of miss_scraper, in Dafny

This project models the sequential logic behind the scraper's browser tool
(`miss_scraper/mcp/tools/browser`) and proves properties of it. It covers five
pieces.

- **DOM reconstruction** (`dom.py`). This lives in `dom.dfy` and `dom_properties.dfy`.
  - The in-page script returns a flat `{ rootId, map }`. `construct_dom_tree` turns it into a tree and a selector map in one ordered pass.
  - Nodes are kept in an arena `map<NodeId, Node>`. Object references become node ids.
    - A child list is a list of ids, and `parent` is the id of the element whose loop attached the node last.
    - So a child shared by several parents is kept, and so is an element listed as its own child.
- **State projection** (`utils.py`). This lives in `text.dfy` and `projection.dfy`.
  - It covers `_normalize_whitespace` and the visibility-pruned text walk `_collect_visible_text`, with its cut to a character budget.
  - The room Python's recursion limit leaves for the nested `dfs` is a parameter (`depth`). Each child's `dfs` takes one level, and so does a visible text node's call of `_normalize_whitespace`. A call past it raises `RecursionError`, which propagates out of `get_llm_browser_state`.
  - It also covers the attribute allow-list `_select_key_attributes` and the index-ordered summaries of `get_llm_browser_state`.
- **Network quiescence** (`utils.py`, `_wait_for_stable_network`). This lives in `network.dfy`.
  - The pending-request set and `last_activity` are the fields of a `Watcher` class. The three handlers are its methods.
  - Clock readings are parameters. An event carries the time its handler reads.
  - The poll loop runs over a given finite schedule of polls.
  - The handlers are registered on, and removed from, a `Tab` object (`tabs.dfy`). That object also holds the cached DOM state of `inject_interactivity` and `get_interactive_dom_map`.
- **Browser session pool** (`pool.py`). This lives in `pool.dfy`.
  - `_BrowserPool` is a class whose dict is a map plus its insertion order.
  - Browsers are objects with a main tab. Starts and stops are recorded in ghost logs.
  - Whether `zd.start` or a `browser.stop()` raises is an input.
- **Extraction schema** (`schema.py`). This lives in `schema.dfy`.
  - It covers the annotation and keyword arguments of `_py_type_from_fielddef`, the field shaping of `make_item_model`, `format_field_type`, and both outputs of `format_schema_for_prompt`.

`wrappers.dfy` holds `Option` and `Result`.

A few behaviours of the code are pinned down by lemmas because they are easy to misread:

- The DOM pass depends on order.
  - A child is attached only when it was built earlier in the pass, or is the element itself.
  - A child id that is missing, or that comes later in the pass, is skipped silently (`MissingChildIsSkipped`, `ChildAfterParentIsNotAttached`).
  - For a repeated highlight index, the element built last wins (`LaterIndexWins`).
  - An element listed as its own child becomes its own child (`SelfChildIsAttached`). Only such self-children make the arena cyclic (`PassWithoutSelfChildFinishes`).
- The text walk re-enters a self-child.
  - When a round through it collects text, the text repeats up to the budget. For an element listing the text "abc" and then itself, the result is 75 rounds of "abc" and the marker, 300 characters, given room for 77 nested calls (`SelfChildRepeatsText`).
  - When a round collects nothing, the walk raises `RecursionError` however high the limit is (`SelfLoopRecursesForever`).
- A text cut to 300 keeps `text[:299].rstrip()` plus the marker, so it has 299 or 300 characters (`TruncateNormalizedLength`).
- The network watcher matches fixed substrings, so it can surprise:
  - URL patterns are matched on the lower-cased URL, so `AD.DOUBLECLICK.NET` is ignored.
  - The pattern `ping` also ignores `https://shopping.example/a.css`.
  - Response headers are looked up by the exact key `content-type`. A response that sends `Content-Type` is treated as irrelevant: it is dropped without counting as activity.
- The pool has no exception handling.
  - A `stop()` that raises ends a sweep pass and leaves its own entry in the pool. It also ends `sweep_expired_sessions` for good: its `while True` loop has no `try`.
  - A `close()` that raises leaves the whole pool in place. A second `close()` then stops the first browser again.

## Model

| member | source | states |
|---|---|---|
| `Dom.ParseNode` | miss_scraper/mcp/tools/browser/dom.py:56-95 | A falsy descriptor yields no node, and any other descriptor yields a node with no links. The node is an element exactly when the descriptor is not tagged `TEXT_NODE`. An element carries the descriptor's highlight index. Only elements declare child ids. |
| `DomProperties.DefaultsOfBareDescriptor` | miss_scraper/mcp/tools/browser/dom.py:74-94 | A descriptor with none of its keys set becomes an element with empty tag, xpath and attributes, every flag false, no highlight index, no viewport info and no children. |
| `DomProperties.TextDescriptorGivesTextNode` | miss_scraper/mcp/tools/browser/dom.py:65-71 | A `TEXT_NODE` descriptor leaves a text node under its id, with the descriptor's text or "" when the text is absent. |
| `Dom.AttachChildren` | miss_scraper/mcp/tools/browser/dom.py:126-132 | The child loop of one element equals `Attach`: the declared ids in order, each attached (parent set, appended to children) only if already in the node map. |
| `DomProperties.AttachFacts` | miss_scraper/mcp/tools/browser/dom.py:125-132 | After the child loop, the element's children are its old children followed by the declared ids found in the node map, in declared order. Exactly those nodes get the element as parent. Every other node's own data and every other element's children are unchanged. |
| `DomProperties.KnownChildrenIff` | miss_scraper/mcp/tools/browser/dom.py:126-129 | An id is among the attached children if and only if it is already built and some declared child id's `str()` equals it. |
| `Dom.ConstructDomTree` | miss_scraper/mcp/tools/browser/dom.py:98-138 | The loop over the page map returns exactly `DomTreeOf(page)`: the result of the ordered build followed by the root check. |
| `DomProperties.DomTreeOfOutcome` | miss_scraper/mcp/tools/browser/dom.py:134-138 | The build succeeds if and only if `str(rootId)` is the id of a non-empty descriptor that is not a text node. It then returns that element as root, together with the node map and selector map of the pass. |
| `DomProperties.BuildKeys` | miss_scraper/mcp/tools/browser/dom.py:115-120 | The node map's keys are exactly the ids of the non-empty descriptors. |
| `DomProperties.BuildNode` | miss_scraper/mcp/tools/browser/dom.py:115-120 | Every non-empty descriptor's id is in the node map. With its links cut, the node there is what `_parse_node` made of the descriptor. |
| `DomProperties.BuildChildren` | miss_scraper/mcp/tools/browser/dom.py:114-132 | An element's final children are its declared child ids that were built up to and including itself in the pass, in declared order. |
| `DomProperties.BuildParents` | miss_scraper/mcp/tools/browser/dom.py:130-132 | A node's parent is an element that lists it as a child. Every listed child has a parent, and that parent comes no earlier in the pass than the listing element. |
| `DomProperties.SelectorKeys` | miss_scraper/mcp/tools/browser/dom.py:122-123 | The selector map's keys are exactly the highlight indices of element descriptors; index 0 included. |
| `DomProperties.SelectorTargets` | miss_scraper/mcp/tools/browser/dom.py:122-123 | The selector map sends an index to an element that carries it, and that element is the last one in the pass to carry it. |
| `DomProperties.SnapshotWellFormed` | miss_scraper/mcp/tools/browser/dom.py:111-138 | A successful build has an element as root. Its selector entries are elements carrying their index. Parent and child links agree. |
| `DomProperties.MissingChildIsSkipped` | miss_scraper/mcp/tools/browser/dom.py:126-129 | With root "0" declaring children "1" and "2" and no "2" in the map, there is no error and the root has exactly the child "1". |
| `DomProperties.ChildAfterParentIsNotAttached` | miss_scraper/mcp/tools/browser/dom.py:114-129 | A child that comes after its parent in the map is not attached. |
| `DomProperties.LaterIndexWins` | miss_scraper/mcp/tools/browser/dom.py:122-123 | Two elements with the same highlight index: the later one is in the selector map. |
| `Text.SplitWords` | miss_scraper/mcp/tools/browser/utils.py:23 | Every token of `str.split()` is non-empty and holds no whitespace. |
| `Text.NormalizeWhitespaceShape` | miss_scraper/mcp/tools/browser/utils.py:22-23 | The result is the whitespace-separated tokens joined by single spaces. It has no leading or trailing whitespace, no two spaces in a row, and no whitespace other than a plain space. |
| `Text.NormalizeFixedPoint` | miss_scraper/mcp/tools/browser/utils.py:22-23 | A string is left unchanged if and only if it already has that normalized shape. |
| `Text.NormalizeIdempotent` | miss_scraper/mcp/tools/browser/utils.py:22-23 | Normalizing twice equals normalizing once. |
| `Text.LStripSpec` | miss_scraper/mcp/tools/browser/utils.py:23 | `lstrip` removes exactly the leading whitespace, and what is left is a suffix of the input. |
| `Text.RStripSpec` | miss_scraper/mcp/tools/browser/utils.py:77 | `rstrip` removes exactly the trailing whitespace, and what is left is a prefix of the input. |
| `Text.ContainsLower` | miss_scraper/mcp/tools/browser/utils.py:170-171 | A substring of a URL stays a substring after both are lower-cased. |
| `Text.ParseIntOfIntToString` | miss_scraper/mcp/tools/browser/utils.py:197 | `int()` reads back every integer's decimal text: `int(str(n)) == n`. |
| `Text.Trunc` | miss_scraper/mcp/tools/browser/schema.py:69-70 | `int()` of a float rounds toward zero: it lies between 0 and the value, less than 1 away. |
| `Text.ReplaceChar` | miss_scraper/mcp/tools/browser/schema.py:142 | `str.replace` of one character by another keeps the length and leaves no occurrence of the replaced character. |
| `Projection.CollectFrom` | miss_scraper/mcp/tools/browser/utils.py:58-72 | The recursive `dfs` appending to `pieces` computes `Dfs`. A call past the recursion limit is a `RecursionError` that ends the walk. |
| `Projection.CollectVisibleText` | miss_scraper/mcp/tools/browser/utils.py:51-78 | `_collect_visible_text` returns the normalized, joined pieces cut to the budget (`VisibleText`), or the `RecursionError` of its walk. |
| `Projection.DfsExtends` | miss_scraper/mcp/tools/browser/utils.py:58-72 | A finished walk only appends to the pieces it is given. Every appended piece is the normalized, non-empty text of a visible text node. |
| `Projection.DfsDeeper` | miss_scraper/mcp/tools/browser/utils.py:58-72 | A walk that finishes gives the same pieces under any higher recursion limit. |
| `Projection.RankedDfsFinishes` | miss_scraper/mcp/tools/browser/utils.py:68-72 | On an arena where every child of a visible element has a lower rank, the walk from a node finishes whenever the limit leaves room for more levels than its rank. The extra level is the text node's `_normalize_whitespace`. |
| `Projection.PassWithoutSelfChildFinishes` | miss_scraper/mcp/tools/browser/dom.py:114-132 | On an arena built by the pass in which no element is its own child, children come strictly earlier in the pass. The walk then finishes whenever the limit leaves room for as many levels as the pass has entries, `_normalize_whitespace` included. |
| `Projection.SelfChildRepeatsText` | miss_scraper/mcp/tools/browser/utils.py:58-78 | For an element whose children are the text "abc" and then itself, the walk finishes exactly when there is room for 77 nested calls. It then returns 75 rounds of "abc" joined by spaces and the marker, 300 characters. |
| `Projection.SelfLoopRecursesForever` | miss_scraper/mcp/tools/browser/utils.py:58-72 | For an element whose only child is itself, the walk raises `RecursionError` at every recursion limit. |
| `Projection.SelfChildPages` | miss_scraper/mcp/tools/browser/dom.py:114-132 | `construct_dom_tree` builds both of these arenas from a two-entry and a one-entry map. |
| `DomProperties.ChildrenBuiltEarlier` | miss_scraper/mcp/tools/browser/dom.py:125-132 | Every child attached to an element is in the node map and comes no later in the pass than that element. |
| `DomProperties.PassRanksNode` | miss_scraper/mcp/tools/browser/dom.py:114-132 | Every built node has a position in the pass, and an element's children have positions no later than its own. |
| `DomProperties.SelfChildIsAttached` | miss_scraper/mcp/tools/browser/dom.py:125-132 | An element whose declared children are "t" and then itself gets exactly those two children, itself included. |
| `DomProperties.SelfLoopIsAttached` | miss_scraper/mcp/tools/browser/dom.py:125-132 | An element whose only declared child is itself becomes its own only child. |
| `Projection.HiddenElementGivesNothing` | miss_scraper/mcp/tools/browser/utils.py:68-70 | A hidden element contributes nothing from its subtree at any recursion limit, also when it is the starting node, whose text is then "". |
| `Projection.TextNodeContribution` | miss_scraper/mcp/tools/browser/utils.py:60-67 | A text node raises if and only if it is visible, the budget is not yet reached, and no level is left for `_normalize_whitespace`. When it does not raise, it adds a piece if and only if it is visible, its normalized text is non-empty, and the budget is not yet reached. The piece is that normalized text. |
| `Projection.TruncateSpec` | miss_scraper/mcp/tools/browser/utils.py:75-78 | Text within the budget is returned unchanged. A text over the budget ends in the marker after a prefix of the text with no trailing whitespace, and, for a positive budget, has at most `char_limit` characters. |
| `Projection.TruncateNormalizedLength` | miss_scraper/mcp/tools/browser/utils.py:76-77 | A normalized text over the budget is cut to `char_limit - 1` or `char_limit` characters. |
| `Projection.NormalizedCutBounds` | miss_scraper/mcp/tools/browser/utils.py:75-78 | The collected text is at most `char_limit` long. It is unchanged when it fits; otherwise it ends in the marker and is at least `char_limit - 1` long. |
| `Projection.VisibleTextBeforeCut` | miss_scraper/mcp/tools/browser/utils.py:75 | After a finished walk, normalizing the joined pieces changes nothing: the pieces are normalized already. |
| `Projection.Picked` | miss_scraper/mcp/tools/browser/utils.py:98-100 | An output entry is a listed key with its input value, neither None nor "". Every such listed key is output. |
| `Projection.PickedOrdered` | miss_scraper/mcp/tools/browser/utils.py:98-100 | Output entries follow the order of the listed keys. |
| `Projection.KeyAttributesMembers` | miss_scraper/mcp/tools/browser/utils.py:83-105 | A listed key is present if and only if its value is neither None nor "". `src` is present if and only if the tag is `img` and `src` is an attribute, whatever its value. Every output key is one of the 12 listed keys or `src`, with the input's value. |
| `Projection.KeyAttributesOrdered` | miss_scraper/mcp/tools/browser/utils.py:97-105 | Output entries come in the order of the key list, followed by `src`. |
| `Projection.SelectKeyAttributes` | miss_scraper/mcp/tools/browser/utils.py:81-105 | The loop filling `result` computes `KeyAttributes`. |
| `Projection.SortedKeys` | miss_scraper/mcp/tools/browser/utils.py:116 | `sorted(selector_map.keys())` is strictly ascending and holds exactly the keys. |
| `Projection.KeptKeysSpec` | miss_scraper/mcp/tools/browser/utils.py:116-119 | The indices kept from ascending keys are ascending. They include every key that names an element. |
| `Projection.SummariesSpec` | miss_scraper/mcp/tools/browser/utils.py:116-131 | The summaries are produced if and only if the text walk of every kept index finishes. There is then one summary per kept index, in order, and it is that index's summary. |
| `Projection.GetLlmBrowserState` | miss_scraper/mcp/tools/browser/utils.py:108-137 | The state is returned if and only if the text walk of every element in the selector map finishes; otherwise the `RecursionError` propagates. The URL is passed through and `total_interactive` is the number of entries. Entries are in strictly ascending index order. Each entry is the summary of its element (tag, key attributes, text cut to 300). Every index naming an element has an entry. |
| `Tabs.Tab.InjectInteractivity` | miss_scraper/mcp/tools/browser/utils.py:30-38 | On success the cached `(root, map)` state is replaced wholesale and the map returned. On a failed build the error propagates and the cache is unchanged. |
| `Tabs.Tab.GetInteractiveDomMap` | miss_scraper/mcp/tools/browser/utils.py:25-28 | A tab with cached state gets its cached map back, whatever the page now is. A tab without one gets a fresh injection. |
| `Tabs.CachedMapIsStable` | miss_scraper/mcp/tools/browser/utils.py:25-28 | Once a map has been returned, asking again returns the same map. |
| `Tabs.Tab.AddHandler` | miss_scraper/mcp/tools/browser/utils.py:216-217 | Registering adds one subscription and changes nothing else on the tab. |
| `Tabs.Tab.RemoveHandler` | miss_scraper/mcp/tools/browser/utils.py:229-230 | Removal drops one registration of the subscription and changes nothing else on the tab. |
| `Network.Watcher.constructor` | miss_scraper/mcp/tools/browser/utils.py:148-149 | The watcher starts with no pending request and `last_activity` set to the creation time. |
| `Network.Watcher.OnRequest` | miss_scraper/mcp/tools/browser/utils.py:165-176 | A request is added to the pending set, and the activity time set to now, only when three things hold. Its resource type must be one of the seven relevant ones. Its lower-cased URL must hold no ignored pattern and must not start with `data:` or `blob:`. Its headers must not mark a prefetch or a video or audio load. Otherwise nothing changes. |
| `Network.AfterResponse` | miss_scraper/mcp/tools/browser/utils.py:178-202 | A response for a non-pending id changes nothing. A pending id is dropped by every branch except the `int()` failure. The activity time changes only for a completed relevant response, and then becomes now. |
| `Network.Watcher.OnResponse` | miss_scraper/mcp/tools/browser/utils.py:178-202 | The handler updates the state as `AfterResponse`. It raises exactly when a non-numeric `content-length` reaches `int()`. |
| `Network.Watcher.OnLoadingFailed` | miss_scraper/mcp/tools/browser/utils.py:204-208 | A pending id is dropped and the activity time set to now. Any other id changes nothing. |
| `Network.Watcher.Deliver` | miss_scraper/mcp/tools/browser/utils.py:165-208 | Events are handled in arrival order, each by its handler: the state becomes `Run` of the events. |
| `Network.StreamingNeverRefreshes` | miss_scraper/mcp/tools/browser/utils.py:187-190 | A pending response whose content type mentions `video` is dropped without counting as activity, whatever else the type says. |
| `Network.CapitalisedContentTypeIsIrrelevant` | miss_scraper/mcp/tools/browser/utils.py:184-194 | A response that sends its type under the key `Content-Type` has content type "" and is treated as irrelevant. |
| `Network.IgnoredAt` | miss_scraper/mcp/tools/browser/utils.py:170-172 | A URL whose lower-cased form holds an ignored pattern at some offset is ignored. |
| `Network.UpperCaseTrackerIsIgnored` | miss_scraper/mcp/tools/browser/utils.py:170-172 | A script request to `https://AD.DOUBLECLICK.NET/` is not tracked. |
| `Network.ShoppingStylesheetIsIgnored` | miss_scraper/mcp/tools/browser/utils.py:157-172 | A stylesheet from `https://shopping.example/` is not tracked, because it contains `ping`. |
| `Network.PendingAreTracked` | miss_scraper/mcp/tools/browser/utils.py:165-208 | After any sequence of events, every pending id was pending before or belongs to a request `on_request` tracked. |
| `Network.ActivityComesFromEvents` | miss_scraper/mcp/tools/browser/utils.py:165-208 | The activity time after a sequence of events is the initial one or the time of one of the events. |
| `Network.UnansweredStaysPending` | miss_scraper/mcp/tools/browser/utils.py:178-208 | A pending id that receives no response and no loading failure stays pending. |
| `Network.Watcher.AwaitStable` | miss_scraper/mcp/tools/browser/utils.py:219-227 | The `while` loop's outcome is `Poll` of the schedule from the watcher's state. |
| `Network.PollStable` | miss_scraper/mcp/tools/browser/utils.py:221-225 | A stable outcome is reported at the stability reading of the first tick whose state is settled (no pending request, more than `idle_time` since the last activity). Every `while` test up to that tick was within the timeout, and no earlier tick was settled. |
| `Network.BreakGivesStable` | miss_scraper/mcp/tools/browser/utils.py:221-225 | Conversely, when every `while` test up to a tick is within the timeout, that tick's state is settled and no earlier one was, the wait is stable at that tick's reading. |
| `Network.PollTimedOut` | miss_scraper/mcp/tools/browser/utils.py:221-227 | A timed-out wait gave up at a `while` test at or past the timeout. Every earlier test was within it, and no earlier tick's state was settled. |
| `Network.TimeOutGivesTimedOut` | miss_scraper/mcp/tools/browser/utils.py:221-227 | Conversely, reaching a `while` test at or past the timeout, with every earlier test within it and no earlier state settled, is a time-out. |
| `Network.PendingBlocksStability` | miss_scraper/mcp/tools/browser/utils.py:223 | A pending request that is never answered keeps the wait from ending as stable. |
| `Network.WaitForStableNetwork` | miss_scraper/mcp/tools/browser/utils.py:147-230 | The wait's outcome is the poll loop run from an empty pending set. After it, the tab holds exactly the handlers it held before, and its URL and DOM cache are untouched. |
| `Pool.BrowserPool.constructor` | miss_scraper/mcp/tools/browser/pool.py:30-32 | A new pool is empty and has started and stopped nothing. |
| `Pool.BrowserPool.GetTab` | miss_scraper/mcp/tools/browser/pool.py:34-44 | A known session returns its own browser's main tab, with its timestamp set to now and no browser started. A new session starts exactly one fresh browser, adds exactly that session with timestamp now, and returns its main tab. A failed start changes nothing. Every other session is unchanged. |
| `Pool.BrowserPool.ListSessions` | miss_scraper/mcp/tools/browser/pool.py:60-61 | The listing has the pool's session ids as keys and their last-used times as values. It reads the pool and changes nothing. |
| `Pool.SweepPass` | miss_scraper/mcp/tools/browser/pool.py:53-58 | The loop over a copy of the items leaves the pool minus the removed sessions, in the same order. It stops the browsers of the sessions `SweepFrom` stops, in order, and raises exactly when that pass did not complete. |
| `Pool.BrowserPool.SweepExpired` | miss_scraper/mcp/tools/browser/pool.py:51-58 | One sweep pass updates the pool, its order and the stop log as `SweepFrom` says, and keeps one browser per session. |
| `Pool.SweepSpec` | miss_scraper/mcp/tools/browser/pool.py:53-58 | Only sessions idle strictly longer than the TTL are stopped. A session is removed if and only if it was stopped and its stop did not raise. A completed pass removes every expired session. A pass fails to complete if and only if its last stop raised. |
| `Pool.SweepStopsExpired` | miss_scraper/mcp/tools/browser/pool.py:55-57 | Every stopped session was expired. |
| `Pool.SweepRemovesStopped` | miss_scraper/mcp/tools/browser/pool.py:57-58 | A session is deleted if and only if its browser was stopped without raising. |
| `Pool.SweepCompletion` | miss_scraper/mcp/tools/browser/pool.py:53-58 | A completed pass deletes every expired session. A pass ends early if and only if its last stop raised. |
| `Pool.SweepStopsOnce` | miss_scraper/mcp/tools/browser/pool.py:53-57 | A pass stops each session at most once. |
| `Pool.SweepNothingExpired` | miss_scraper/mcp/tools/browser/pool.py:55 | When no session is expired, the pass stops and removes nothing. |
| `Pool.SweepIdempotent` | miss_scraper/mcp/tools/browser/pool.py:53-58 | Right after a completed pass, a second pass at the same time stops nothing. |
| `Pool.WithoutMembers` | miss_scraper/mcp/tools/browser/pool.py:58 | Deleting a set of sessions keeps exactly the other sessions. |
| `Pool.ValidWithout` | miss_scraper/mcp/tools/browser/pool.py:58 | Deleting sessions keeps the pool a dict with one browser per session. |
| `Pool.CloseSpec` | miss_scraper/mcp/tools/browser/pool.py:75-78 | The shutdown loop stops a prefix of the sessions. It gets through if and only if no stop raises, and then it stops them all. Otherwise it stops up to and including the first stop that raises. |
| `Pool.StopAll` | miss_scraper/mcp/tools/browser/pool.py:75-77 | The loop stops the browsers of that prefix in order, and raises exactly when the shutdown did not get through. |
| `Pool.BrowsersOnce` | miss_scraper/mcp/tools/browser/pool.py:75-77 | A shutdown that gets through stops every registered browser, and each exactly once. |
| `Pool.BrowserPool.Close` | miss_scraper/mcp/tools/browser/pool.py:70-78 | `close` stops the browsers in pool order. If none raises, the pool is left empty; on a raising stop it is left as it was. |
| `Pool.BrowserPool.AExit` | miss_scraper/mcp/tools/browser/pool.py:63-68 | `__aexit__` has the same effect as `close`. |
| `Pool.CloseTwice` | miss_scraper/mcp/tools/browser/pool.py:63-78 | After a shutdown that got through, a second stops nothing, and the first stopped one browser per session. After one that raised, the second stops the first browser again. |
| `Schema.KwargsSpec` | miss_scraper/mcp/tools/browser/schema.py:53-73 | String fields take only `min_length`/`max_length`, and number and integer fields only `ge`/`le`. Each keyword is present if and only if its setting is. Number bounds are kept as given and integer bounds truncated. Boolean fields take none. |
| `Schema.IntegerBoundsTruncate` | miss_scraper/mcp/tools/browser/schema.py:66-70 | An integer field with only a minimum gets exactly `ge` of the truncated minimum; -2.5 gives -2. |
| `Schema.AnnotationOf` | miss_scraper/mcp/tools/browser/schema.py:77-90 | The annotation is a `Literal` of the enum values if and only if the enum is non-empty and every value passes the base-type check. Otherwise it is the base type. |
| `Schema.EnumBoolsAndInts` | miss_scraper/mcp/tools/browser/schema.py:80-86 | A boolean anywhere in the enum keeps a number or integer field unnarrowed, and so does a float in an integer field's enum. A non-empty enum of integers and floats narrows a number field to exactly those values. A non-empty enum of integers narrows an integer field the same way. |
| `Schema.ModelFieldOf` | miss_scraper/mcp/tools/browser/schema.py:101-110 | A required field keeps its annotation and has no default. Any other field becomes `Optional` with default None. The annotation is `Optional` if and only if the field is not required. Each field keeps its description and keyword arguments. |
| `Schema.MakeItemModel` | miss_scraper/mcp/tools/browser/schema.py:92-113 | The model has the given name and one field per input field, with the same names in input order, each shaped by `ModelFieldOf`. |
| `Schema.FormatFieldTypeSpec` | miss_scraper/mcp/tools/browser/schema.py:173-178 | The shown type starts with `enum(` if and only if the enum is non-empty, and then ends in `)`. Otherwise it is the type name. |
| `Schema.SchemaDescription` | miss_scraper/mcp/tools/browser/schema.py:137-142 | The schema text holds no single quote. |
| `Schema.DictReprOne` | miss_scraper/mcp/tools/browser/schema.py:142 | The `str` of a one-entry dict is `{'k': 'v'}`. |
| `Schema.EnumSchemaExample` | miss_scraper/mcp/tools/browser/schema.py:137-142 | A string field with enum `["A"]` is shown as `{"c": "enum(["A"])"}`: the quotes inside the enum become double quotes too. |
| `Schema.StructureLoop` | miss_scraper/mcp/tools/browser/schema.py:138-140 | The first loop pairs each field name with its formatted type, in input order. |
| `Schema.ConstraintsSpec` | miss_scraper/mcp/tools/browser/schema.py:152-164 | Constraints come in the fixed order: optional, allowed values, min length, max length, minimum, maximum. Each is present if and only if its setting is, and `optional` if and only if the field is not required. |
| `Schema.ConstraintsAscending` | miss_scraper/mcp/tools/browser/schema.py:152-164 | The constraints' ranks are strictly ascending. |
| `Schema.ConstraintList` | miss_scraper/mcp/tools/browser/schema.py:152-164 | The six appends produce the texts of the field's constraints, in that order. |
| `Schema.OptionalShown` | miss_scraper/mcp/tools/browser/schema.py:152-167 | A field that is not required shows `optional` first. A required field with no enum and no bounds has no constraint list. |
| `Schema.DescriptionLine` | miss_scraper/mcp/tools/browser/schema.py:147-169 | The appends to `desc_parts` produce the field's description line. |
| `Schema.FieldLineShape` | miss_scraper/mcp/tools/browser/schema.py:147-169 | A line starts with `**name** (type)` and, with constraints, ends in `]`. With neither description nor constraints it is just that head. |
| `Schema.DescriptionLoop` | miss_scraper/mcp/tools/browser/schema.py:145-169 | The second loop emits one description line per field, in input order. |
| `Schema.FieldDescriptionsRoundTrip` | miss_scraper/mcp/tools/browser/schema.py:169-171 | When no line holds a line break, splitting the descriptions at line breaks gives back exactly one line per field, in input order. |
| `Schema.FormatSchemaForPrompt` | miss_scraper/mcp/tools/browser/schema.py:132-171 | Both outputs are as specified: the quote-replaced `str` of the structure, and the lines joined by `"\n"`. |

## Left out

- Clocks, sleeps and the network are parameters or left out.
  - `time.monotonic()` and `time.time()` readings are inputs.
  - The `asyncio.sleep` delays, the 0.1 s poll interval and the 20 s sweep interval are not modelled. The sweep interval exists only as a constant.
  - The infinite `while True` of `sweep_expired_sessions` is one pass at a time.
  - The `asyncio.Lock` and concurrency between tasks are left out too. Every operation runs to completion before the next one starts.
- One sweep pass reads the clock once. The code calls `time.time()` once per entry, so within one pass later entries may see a later time.
- The wait polls over a finite list of polls given in advance. `ScheduleEnded` marks a list that ran out before a decision; the code's loop always ends by timeout or stability.
- Floating point is real arithmetic.
  - Timeouts, idle time and timestamps are `real`.
  - `str()` of a float bound is kept as given text (`Float.shown`).
  - `int()` of a float is truncation toward zero.
- The in-page script and `tab.evaluate` in `exec_js_interactivity` are left out. The evaluated page is a parameter, and `tab.evaluate` is not part of this model.
- `_dump_page` (file I/O) and `get_element_by_selector_index` (an xpath query on the live page) are not part of this model.
- JSON values are modelled with simplifications.
  - A descriptor key holding JSON null is treated like an absent key.
    - For `attributes`, `children`, `highlightIndex`, the flags and a text node's walk this is what the code does.
    - For `tagName` and `xpath`, the code keeps None where the model has "".
    - For `viewport.width` and `viewport.height`, the code's `int(None)` raises TypeError where the model gives 0.
  - Flags count as true only for JSON `true`: `bool()` of other truthy values is not modelled.
  - Child ids are integers or strings. Highlight indices are integers only. A string highlight index, with which `sorted(selector_map.keys())` raises TypeError on mixed key types, is not modelled.
  - `viewport` sizes are numbers.
- `Projection.Truncate`, `Projection.TruncateNormalizedLength`, `Projection.NormalizedCutBounds`: the marker literal in utils.py is stored as the three characters `â€¦`, which is UTF-8 for U+2026 read as Windows-1252. The model reads it as the single character U+2026. On the literal as stored, the cut text would be 301 or 302 characters long and the stated length bounds would not hold.
- `Projection.Dfs`, `Projection.CollectVisibleText`, `Projection.GetLlmBrowserState`: the room Python's recursion limit leaves below the first `dfs` call is a parameter. Frames are counted: one per `dfs` and one per call of `_normalize_whitespace`. The `str` methods `_normalize_whitespace` calls are built in and take no Python frame. It depends on `sys.getrecursionlimit()` and on the caller's stack, which are not modelled.
- `Projection.Truncate`: the budget is a natural number. Only the budget 300 is used, so a negative `char_limit` is not modelled.
- `Text.Lower` lower-cases ASCII letters only. Python's full Unicode case mapping is not modelled.
- `Text.ParseInt` accepts optional surrounding whitespace, a sign and ASCII digits. Underscores between digits and non-ASCII digits, which `int()` also accepts, are not modelled.
- The resource type of a request is compared by its protocol name (`Document`, `Script`, ...). Whether the driver's enum value equals that string is driver behaviour and is not modelled.
- Event dispatch by the driver is not modelled. Handlers run in arrival order, and an exception in `on_response` (a non-numeric `content-length`) only ends that handler.
- `Tabs.Tab.RemoveHandler`: removes one registration of the handler. The driver's `remove_handlers` semantics beyond that are not modelled.
- Browsers are opaque objects.
  - `zd.start` either gives a fresh browser or raises (`startFails`).
  - `stop()` either returns or raises (`failing`).
  - Stops are recorded in a ghost log, and the state of the real browser process is not modelled.
- Python `repr` is simplified.
  - Strings are shown in single quotes without escapes; Python switches to double quotes for a string that holds a single quote, and escapes control characters.
  - Other enum values are shown as given text.
- Pydantic is left out.
  - `create_model`, `Field(...)` and `Literal[...]` are descriptor records, so validation by the built model is not modelled.
  - `make_response_model` is only a wrapper around `make_item_model` and `create_model`, so it is not modelled.
- The `ValueError` for an unsupported field type cannot occur: the field type is one of the four literals.
- Logging calls are left out.
