# Portfolio page: active-section tracking and navigation highlighting

This project models the logic of a single-page portfolio site whose navigation
bar highlights the section the reader is looking at. The page keeps an ordered
registry of six sections (home, about, projects, skills, experience, contact).
On every scroll and resize the page recomputes the active section with a
last-one-wins scan. The scan picks the last section in registry order whose
element exists and whose top is at or above `scrollY + 96 + 1`, where 96 is the
sticky header's height. When no section qualifies, the first section is chosen.
When the viewport is within a pixel of the end of the document, the last section
wins instead. Each navigation link's class name is built with a small joiner
(`cx`). The joiner keeps its truthy arguments and joins them with single spaces.
The link's class name holds the highlighted styling exactly when its id equals
the active id.

Modules:

- `Options`: the `Option` type. It stands for a DOM element that may be missing
  and for a class-name argument that may be absent.
- `Sections`: the registry, the list of its ids, and the fact that those ids are
  distinct.
- `Tracker`: the tracker. `GetCurrent` is the loop as the page writes it.
  `CurrentSection` and `CurrentIndex` are its specification, built on the
  recursive `LastQualifying`. The lemmas state the fallback, bottom-override,
  skip and monotonicity properties.
- `ClassNames`: the joiner `Cx` as filter-then-join. `Split` is the partner
  definition: joining the pieces of a split gives back the string, and
  splitting a join gives back parts that contain no separator.
- `Nav`: the class name of each navigation link. The final lemma says that, on
  the real registry, the tracker's result highlights exactly one link.

The DOM is the tracker's input. `offsets[i]` is what looking up the element
with id `ids[i]` yields: `None` when it is not rendered, `Some(top)` otherwise.
`scrollY`, `innerHeight` and `scrollHeight` are the window's scroll offset, the
viewport height and the document height. They are modelled as whole pixels,
although browsers may report fractional scroll offsets.

## Model

| member | source | states |
|---|---|---|
| `Sections.Ids` | src/App.jsx:154 | the id list has one entry per section, in registry order, each the section's id |
| `Sections.RegistryWellFormed` | src/App.jsx:6-13 | the registry has six sections with pairwise distinct ids, and the first one is the initial active id "home" of src/App.jsx:150 |
| `Tracker.Threshold` | src/App.jsx:151-156 | the scroll line is the window's scroll offset plus the 96-pixel header height plus one |
| `Tracker.Qualifies` | src/App.jsx:159-161 | a section counts when its element exists and its top offset is at or above the scroll line |
| `Tracker.AtBottom` | src/App.jsx:163-164 | the viewport's bottom edge is within one pixel of the document height, tested on the raw scroll offset |
| `Tracker.ScanIndex` | src/App.jsx:157-162 | the scan's index is the first section or a qualifying one, and no later section qualifies |
| `Tracker.LastQualifying` | src/App.jsx:156-162 | the result is an index whose element exists and lies at or above the threshold, and no later index qualifies; it is None exactly when no index qualifies |
| `Tracker.CurrentSection` | src/App.jsx:155-167 | the active id is always a member of the id list |
| `Tracker.CurrentIndex` | src/App.jsx:155-167 | the active index is a valid position in the registry |
| `Tracker.GetCurrent` | src/App.jsx:155-167 | the scan starting from the first id, followed by the bottom override, returns exactly the specified active section |
| `Tracker.LastQualifyingWins` | src/App.jsx:156-162 | away from the bottom, when some section qualifies, the active section qualifies, is at or after every qualifying section, and no later section qualifies (ties go to the later section) |
| `Tracker.FallbackToFirst` | src/App.jsx:157-161 | away from the bottom, with no section qualifying, the first section is active |
| `Tracker.BottomOverride` | src/App.jsx:163-165 | at the bottom of the document the last section is active, whatever the offsets |
| `Tracker.MissingSectionSkipped` | src/App.jsx:159-160 | a section with no element is active only at the bottom of the page, or as the first section when nothing qualifies |
| `Tracker.LastQualifyingMonotone` | src/App.jsx:156-161 | raising the threshold keeps a qualifying result qualifying and never moves it to an earlier index |
| `Tracker.ScrollMonotone` | src/App.jsx:156-165 | with layout and viewport height fixed, scrolling further down never makes an earlier section active |
| `ClassNames.Truthy` | src/App.jsx:147 | an argument survives `filter(Boolean)` exactly when it is present and non-empty |
| `ClassNames.Cx` | src/App.jsx:147 | defined as `Join(Truthies(args), ' ')`, the filter-then-join of the source; its contract says the name is empty exactly when no argument is truthy, and otherwise has the truthy strings' total length plus one space between each pair; its further properties are the `Cx*` lemmas below |
| `ClassNames.Truthies` | src/App.jsx:147 | the kept strings are non-empty; every truthy argument's string is kept and every kept string is some argument's value; there are no more of them than arguments; and none are kept exactly when no argument is truthy |
| `ClassNames.Join` | src/App.jsx:147 | the joined string's length is the parts' total length plus one separator between each pair of neighbours; no parts give the empty string |
| `ClassNames.TruthiesAppend` | src/App.jsx:147 | filtering keeps argument order: filtering a concatenation concatenates the filtered halves |
| `ClassNames.JoinAppend` | src/App.jsx:147 | joining two non-empty lists put together is joining each, with one separator between them |
| `ClassNames.CxAppend` | src/App.jsx:147 | the class name of two argument lists put together is the two class names with exactly one space between them when both are non-empty, and the non-empty one otherwise |
| `ClassNames.CxDropsFalsy` | src/App.jsx:147 | a falsy argument anywhere in the list contributes nothing |
| `ClassNames.CxPair` | src/App.jsx:147 | two truthy arguments give their strings with a single space between them |
| `ClassNames.SplitJoin` | src/App.jsx:147 | for a non-empty list of parts, cutting their join at the separator gives the pieces of every part in order, so the inserted separators never merge with or split the parts |
| `ClassNames.CxRoundTrip` | src/App.jsx:147 | when at least one argument is truthy and no argument contains a space, cutting the class name at its spaces gives back exactly the truthy arguments in order, so there are no leading, trailing or doubled spaces (with no truthy argument the name is empty, and cutting it gives one empty piece) |
| `ClassNames.JoinSplit` | src/App.jsx:147 | joining the pieces of any string cut at the separator gives back the string, so `Split` undoes the join in the other direction too |
| `ClassNames.JoinEdges` | src/App.jsx:147 | a join of non-empty parts starts with the first part's first character and ends with the last part's last character |
| `ClassNames.CxNoEdgeSpace` | src/App.jsx:147 | when no truthy argument begins or ends with a space, neither does the class name |
| `Nav.LinkClassName` | src/App.jsx:189-194 | a link's class name is the highlighted one exactly when the active id equals its id, and the plain one exactly when they differ |
| `Nav.NamesDiffer` | src/App.jsx:190-193 | the highlighted and plain class names are different strings |
| `Nav.LinkClassNames` | src/App.jsx:185-199 | there is one class name per section, in registry order, each chosen for that section's id |
| `Nav.AtMostOneHighlighted` | src/App.jsx:185-199 | with unique ids, no two links are highlighted |
| `Nav.ExactlyOneHighlighted` | src/App.jsx:185-199 | with unique ids, the link at the active id's position is highlighted and every other link is not |
| `Nav.TrackerHighlightsOneLink` | src/App.jsx:150-199 | on the real registry, for any layout and scroll position, the tracker's active id names one registry position, and that position's link is the only highlighted one |

## Left out

- The contact form (src/components/Contact.jsx). It only sets a status object around an awaited call to an external e-mail library, then resets the DOM form. The library is foreign code, so this is not modelled. The code also has no guard against a second submit while one is in flight, so none is modelled.
- Subscribing to and unsubscribing from scroll and resize events, the eager first update, and storing the result with `setActive` (src/App.jsx:153-176). This is React lifecycle and event plumbing. The model is the value each update would store.
- DOM reads (`document.getElementById`, `offsetTop`, `window.scrollY`, `innerHeight`, `scrollHeight`). They become the parameters of the tracker. The same id looked up twice in the DOM returns the same element, but the parallel offset list does not force that. The registry's ids are distinct, so this makes no difference on the page.
- Fractional pixel values and the rounding up in the bottom test (src/App.jsx:164). Positions are integers, and rounding up an integer changes nothing.
- `ClassNames.Truthies`, `ClassNames.Cx`: JavaScript's `filter(Boolean)` also drops `false`, `null`, `undefined`, `0` and `NaN`. The page passes only strings, so arguments are modelled as optional strings, with an absent or empty string counting as falsy.
- Calling the tracker twice on the same inputs gives the same result. This needs no lemma: `CurrentSection` is a function, and `GetCurrent`'s postcondition determines its result.
- All markup, styling, animations and the static content of the timeline, project cards, badges and skill lists (src/App.jsx:15-145, 178-352). None of it is computed.
