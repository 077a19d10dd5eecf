# Patient profile form and admin sidebar: a Dafny model

This project models the two pieces of the SaaS chronic-disease management front
end that have behaviour worth stating:

- **The patient's basic-information form** (`BasicInfoForm.tsx`). It covers the
  validation schema's per-field rules and a validation that reports every failing
  field together. It also covers the values the form starts from: the caller's
  `initialData` with its birth date normalised, or a fixed empty record. The
  form's state is a class. `Reset` replaces the values and clears the issues.
  `Submit` hands the validated record to `onSave` once, unchanged, or shows the
  issues and saves nothing. Last, the birth-date calendar's range test.
- **The administration sidebar** (`AdminSidebar.tsx`). Each entry has path
  predicates: initial expansion by string prefix, active, parent-active and
  highlighted. Its click handler is a `NavLink` class whose `isExpanded` flips on
  parents while leaves navigate and call `onClick`. The entry also decides which
  children it renders. The link list is grouped by label with a loop, like the
  source's `reduce`, and proved against filter and first-occurrence
  specifications. The grouping is proved to be a permutation of the links. The
  rendered rows carry a header for every group except `General`.

Files: `optional.dfy` (the `Option` type), `profile_schema.dfy` (record, rules,
`Validate`), `profile_form.dfy` (defaults, initialisation, form state, calendar),
`sidebar_nav.dfy` (one sidebar entry) and `sidebar_groups.dfy` (grouping and rows).

Modelling choices, following the code:

- JavaScript truthiness is written out. `item.children` counts as present even
  when it is an empty array. `link.label || 'General'` sends an absent or empty
  label to `General`. `initialData.dob ? … : undefined` treats an absent or empty
  birth date as absent.
- The consent flags use `z.boolean().default(false).optional()`. The `optional`
  wrapper accepts `undefined` before the default applies, so an absent flag stays
  absent and passes. The birth date's `required_error` can never fire, because
  the field is wrapped in `.optional()`.
- `z.string().min(1).max(50)` counts UTF-16 code units, so `Utf16Length` counts a
  character outside the Basic Multilingual Plane twice.
- A date is a number of milliseconds since 1970-01-01T00:00Z, or an invalid date.
  Data from the caller may also hold a date as ISO text. `z.date()` rejects both
  an invalid date and text. Only `dob` is parsed on reset, so text in
  `admissionDate` or `recordDate` stays text and fails validation.

Where the product's design description and the code differ, the model follows
the code:

- The education level is not restricted to the eight drop-down options. The
  schema accepts any string.
- The schema puts no range on the birth date. Only the calendar limits which days
  can be picked.
- A parent whose path is a prefix of the current path is highlighted only when it
  is not a sub-item.
- Expansion is a character prefix test, not a path-segment test: `/a` is expanded
  on `/ab`.

## Model

| member | source | states |
|---|---|---|
| `ProfileSchema.Utf16Length` | src/components/profile/BasicInfoForm.tsx:48 | the length the name limits count: at least the number of characters, at most twice it, zero only for the empty string |
| `ProfileSchema.Validate` | src/components/profile/BasicInfoForm.tsx:47-66 | a field is in the result iff its rule fails, and it maps to that rule's issue, so all failing fields are reported together |
| `ProfileSchema.NameRule` | src/components/profile/BasicInfoForm.tsx:48 | `name` passes iff it has 1 to 50 UTF-16 code units; the empty name fails as too short |
| `ProfileSchema.PhoneRule` | src/components/profile/BasicInfoForm.tsx:54 | `contactPhone` passes iff it is empty or eleven digits starting with `1` and then `3`-`9` |
| `ProfileSchema.MobileNumberByValue` | src/components/profile/BasicInfoForm.tsx:54 | the phone pattern holds iff the string is eleven digits denoting a number from 13000000000 to 19999999999 |
| `ProfileSchema.PhoneExamples` | src/components/profile/BasicInfoForm.tsx:54 | `13800138000` passes; `12345` and `12800138000` fail |
| `ProfileSchema.ChoiceRules` | src/components/profile/BasicInfoForm.tsx:49-65 | gender, blood type and marital status pass iff present and in their closed sets; reliability passes iff absent or one of its three values |
| `ProfileSchema.DateAndEmailRules` | src/components/profile/BasicInfoForm.tsx:50-63 | the three date fields pass iff absent or a valid date object; the e-mail passes iff absent, empty or an e-mail address |
| `ProfileSchema.UncheckedFields` | src/components/profile/BasicInfoForm.tsx:51-64 | address, occupation, education level (any string), record number, informant and both consent flags never fail |
| `ProfileForm.NormaliseDob` | src/components/profile/BasicInfoForm.tsx:100 | an absent or empty birth date becomes absent, other text is parsed (an unparsable one becomes an invalid date), a date object is kept; the result is never text |
| `ProfileForm.InitialValues` | src/components/profile/BasicInfoForm.tsx:95-105 | without data the values are the empty form; with data they equal it field for field except the normalised birth date |
| `ProfileForm.EmptyFormShape` | src/components/profile/BasicInfoForm.tsx:79-87 | without data both consent flags are false, text fields empty, choices and institution-managed fields absent |
| `ProfileForm.EmptyFormIssues` | src/components/profile/BasicInfoForm.tsx:79-87 | validating the empty form reports exactly name (too short), gender, blood type and marital status (missing); empty phone and e-mail pass |
| `ProfileForm.InitialValuesIdempotent` | src/components/profile/BasicInfoForm.tsx:97-101 | initialising again from the initialised values changes nothing |
| `ProfileForm.InitialDobValidity` | src/components/profile/BasicInfoForm.tsx:100 | after initialisation the birth date fails validation iff the caller gave an invalid date or text that does not parse |
| `ProfileForm.FormState.constructor` | src/components/profile/BasicInfoForm.tsx:89-93 | a mounted form starts from the caller's record as given, or the empty form, with no issues and nothing saved |
| `ProfileForm.FormState.Reset` | src/components/profile/BasicInfoForm.tsx:95-106 | the values become `InitialValues` of the data, all issues are cleared, nothing is saved |
| `ProfileForm.FormState.Submit` | src/components/profile/BasicInfoForm.tsx:108-114 | accepted iff validation finds nothing; then the unchanged values are appended to the `onSave` calls exactly once, otherwise all issues are shown and nothing is saved |
| `ProfileForm.CalendarBounds` | src/components/profile/BasicInfoForm.tsx:155 | the calendar test as written allows an instant iff it lies from 1900-01-01T00:00Z to now |
| `ProfileForm.FirstDayOf1900DisabledEastOfUtc` | src/components/profile/BasicInfoForm.tsx:155 | as written, east of UTC the day 1900-01-01 is disabled |
| `ProfileForm.DaySelectable` | src/components/profile/BasicInfoForm.tsx:155 | with days compared as days, a day can be picked iff it is on or after 1900-01-01 and has started; 1900-01-01 can be picked in every time zone |
| `ProfileForm.DayDisabledAgreesWestOfUtc` | src/components/profile/BasicInfoForm.tsx:155 | at UTC and west of it the day test and the test as written disable the same days |
| `ProfileForm.PickedDateIsValid` | src/components/profile/BasicInfoForm.tsx:150-155 | a day the calendar allows always passes the birth-date rule |
| `SidebarNav.StartsWithIsPrefix` | src/components/saas-admin/layout/AdminSidebar.tsx:19 | `startsWith` is the sequence-prefix relation |
| `SidebarNav.PrefixIsNotSegmentMatch` | src/components/saas-admin/layout/AdminSidebar.tsx:19 | a node at `/a` starts expanded on `/ab` and, with children, is parent-active there |
| `SidebarNav.ActiveIsExactMatch` | src/components/saas-admin/layout/AdminSidebar.tsx:21-22 | a node is active iff the current path equals its path, whether or not it has children |
| `SidebarNav.PathRules` | src/components/saas-admin/layout/AdminSidebar.tsx:19-45 | active implies initially expanded; a parent is parent-active iff initially expanded; a leaf never is; a highlighted node's path prefixes the current path; a top-level parent is highlighted iff initially expanded, a sub-item iff active |
| `SidebarNav.SiblingExample` | src/components/saas-admin/layout/AdminSidebar.tsx:19-45 | on `/a/b` a parent at `/a` is expanded, parent-active and highlighted; a node at `/a/c` is none of these |
| `SidebarNav.ClickRules` | src/components/saas-admin/layout/AdminSidebar.tsx:26-32 | a click navigates iff the node is a leaf, flips the expansion iff it has children, and calls `onClick` iff it is a leaf that was given one |
| `SidebarNav.ClickTwiceRestores` | src/components/saas-admin/layout/AdminSidebar.tsx:26-29 | two clicks restore the expansion |
| `SidebarNav.NavLink.constructor` | src/components/saas-admin/layout/AdminSidebar.tsx:15-19 | a mounted entry starts expanded iff the current path starts with its path |
| `SidebarNav.NavLink.Click` | src/components/saas-admin/layout/AdminSidebar.tsx:26-33 | the entry's expansion, navigation and `onClick` count change as `ClickStep` says |
| `SidebarNav.NavLink.Navigated` | src/components/saas-admin/layout/AdminSidebar.tsx:19 | a new current path leaves the expansion as it was |
| `SidebarNav.NavLink.RenderedChildren` | src/components/saas-admin/layout/AdminSidebar.tsx:50-56 | children are rendered iff the node has children and is expanded, all of them in order, each as a sub-item with the same path and callback |
| `SidebarNav.ParentClickedTwice` | src/components/saas-admin/layout/AdminSidebar.tsx:26-29 | a parent entry clicked twice is expanded as before and has not called `onClick` |
| `SidebarGroups.GroupLinks` | src/components/saas-admin/layout/AdminSidebar.tsx:64-71 | the loop yields the groups in order of their first link, and each group holds exactly the links with that label (or `General`) in input order |
| `SidebarGroups.GroupOrderDistinct` | src/components/saas-admin/layout/AdminSidebar.tsx:66-68 | each group is created once |
| `SidebarGroups.GroupMembership` | src/components/saas-admin/layout/AdminSidebar.tsx:65-69 | a group exists iff some link has its name; its members all have that name; every link is in the group of its own name |
| `SidebarGroups.GroupingOnlyAppends` | src/components/saas-admin/layout/AdminSidebar.tsx:69 | grouping a prefix of the links gives prefixes of the groups and of the group order |
| `SidebarGroups.GroupingIsPermutation` | src/components/saas-admin/layout/AdminSidebar.tsx:64-71 | the groups laid out in order hold each link exactly as often as the input, so the group sizes sum to the number of links |
| `SidebarGroups.RowHeaders` | src/components/saas-admin/layout/AdminSidebar.tsx:88-94 | the rows hold one header per group other than `General` and no other header |
| `SidebarGroups.RowEntries` | src/components/saas-admin/layout/AdminSidebar.tsx:88-97 | the links among the rows are the groups' links, group after group |
| `SidebarGroups.SidebarRows` | src/components/saas-admin/layout/AdminSidebar.tsx:64-97 | the rendered list shows every link as often as it is listed, and a header for exactly each group other than `General` |
| `SidebarGroups.InheritedLabelThrows` | src/components/saas-admin/layout/AdminSidebar.tsx:64-71 | one link labelled `constructor` makes the reduce as written throw, although the intended grouping is one group with that link |
| `SidebarGroups.ReduceThrowsIffInherited` | src/components/saas-admin/layout/AdminSidebar.tsx:66-69 | the reduce as written throws iff some link's group name is a property every object inherits |
| `SidebarGroups.ReduceAgreesWithGrouping` | src/components/saas-admin/layout/AdminSidebar.tsx:64-71 | without such names the reduce as written computes the intended grouping |

## Left out

- `src/app/page.tsx` is not part of this model. It is a static landing page whose only logic reads the clock for the footer year.
- The enterprise editor dialogs (`EnterpriseDialog.tsx`, with their quota defaults and identity and timestamp handling) are not part of this model.
- E-mail well-formedness is the validation library's own test, which is not visible. It is the parameter `isEmail`; an absent or empty e-mail passes without it.
- ISO parsing (`parseISO`) is the parameter `parseIso`, and the current instant (`new Date()`) is the parameter `now`. Date formatting for display is not modelled.
- The issue texts (the Chinese messages) are not modelled. Each failing field carries an `Issue` kind, one per field, as the form resolver reports the first issue of a field.
- Form-library plumbing is not modelled: re-validation on every change (`mode: "onChange"`), editing a single field, the resolver wiring, and the order of the initial `defaultValues` and the reset effect. The hydration placeholder (lines 116-130) and the toast (lines 110-113) are also left out.
- Markup, styling, icons, `Link` navigation and `usePathname` are not modelled. The current path is an input, and a click returns whether the link goes on to navigate.
- The contents of `saasNavLinks` are not shown in the source. The link list is an input sequence.
- `SidebarGroups.GroupLinks` keeps groups in order of first occurrence. `Object.entries` lists integer-like keys such as `"1"` first, in ascending order. The model agrees with the source whenever no label is a canonical array index.
- `SidebarNav.NavLink.RenderedChildren` gives the props of the rendered children. Each child's own expansion state is a separate `NavLink`, created when the child mounts.

## Findings

| source | as written | input that shows it | evidently intended | confidence | as-written member | corrected member |
|---|---|---|---|---|---|---|
| src/components/saas-admin/layout/AdminSidebar.tsx:64-71 | the reduce accumulates into `{}`; for a label naming an inherited property (`constructor`, `toString`, `__proto__`, ...) `acc[groupLabel]` is already truthy, no array is created, and `push` throws a TypeError | one link whose label is `"constructor"` | group links under any label | high that it throws for such labels; not executed | `SidebarGroups.InheritedLabelThrows` | `SidebarGroups.GroupLinks` |
| src/components/profile/BasicInfoForm.tsx:155 | the lower bound `new Date("1900-01-01")` is midnight UTC, while the calendar asks about the start of each local day; east of UTC the start of 1900-01-01 is earlier than the bound | time zone UTC+8: 1900-01-01 starts at 1899-12-31T16:00Z and is disabled | 1900-01-01 can be picked (the year picker starts at 1900) | medium: assumes the calendar passes local midnights; not executed | `ProfileForm.FirstDayOf1900DisabledEastOfUtc` | `ProfileForm.DaySelectable` |
