# Split-N-Eat: the App state machine

This project models the state of the Split-N-Eat expense-splitting screen, a single React component tree. The `App` component keeps three pieces of state:

- the ordered friend list, where each friend is an id, name, image URL and balance;
- whether the add-friend panel is open;
- the selected friend, if any.

The `FormAddFriend` component keeps its name and image fields while the panel is open. The model covers these parts:

- `SplitApp.App` and `SplitApp.AddFriendForm` are classes whose fields are that state. Their methods are the event handlers. Each handler is one atomic transition.
- The add-friend form exists only while the panel is open, as in React. Closing the panel discards the form. Reopening it starts with an empty name and the default image URL.
- `Friends` holds the pure logic:
  - the starting list;
  - the record a submit builds (balance 0, image URL followed by `?random=` and the id);
  - the updater that toggles the selection by id;
  - the selected mark of a row;
  - the three balance guards that choose a row's message.
- `NumberText` models how the id is written into the image URL. A JavaScript template literal prints an integer below 2^53 as its decimal numeral, and every 32-bit id is below that bound. The model proves that this numeral can be parsed back, and that different ids give different numerals.

Balances are integers. The id is the 32-bit unsigned value the random source gives. It is a parameter of the submit methods.

## Model

| member | source | states |
|---|---|---|
| `NumberText.Decimal` | src/App.tsx:168 | the printed id is a non-empty string of digits with no leading zero (except for 0 itself) |
| `NumberText.DecimalCanonicalValue` | src/App.tsx:168 | the printed numeral is canonical and denotes the number printed |
| `NumberText.DecimalRoundTrip` | src/App.tsx:168 | parsing the printed numeral gives the id back |
| `NumberText.ParseRoundTrip` | src/App.tsx:168 | every canonical numeral is the printed form of its value |
| `NumberText.ParseDecimalIff` | src/App.tsx:168 | a string parses to n if and only if it is n's printed numeral |
| `NumberText.DecimalInjective` | src/App.tsx:168 | different ids print as different numerals |
| `Friends.NewFriend` | src/App.tsx:163-170 | the new record has the drawn id, the entered name and balance 0; its image is the entered URL, then `?random=`, then a suffix that parses back to the id |
| `Friends.NewFriendImageIff` | src/App.tsx:165-170 | a URL is the new record's image if and only if it is the entered URL plus `?random=` plus the id's numeral |
| `Friends.NewFriendImagesDiffer` | src/App.tsx:168 | for the same entered URL, two different ids give two different image URLs |
| `Friends.IsSelected` | src/App.tsx:119 | a row is marked exactly when there is a selection whose id equals the row's id; with no selection no row is marked, and a selection marks its own id and no other |
| `Friends.SelectedRows` | src/App.tsx:119-122 | the positions of the rows marked selected: exactly the rows whose id the selection marks, and none when nothing is selected |
| `Friends.Abs` | src/App.tsx:128 | the amount shown for a negative balance, `Math.abs`: the larger of the balance and its negation, and equal to one of them |
| `Friends.SelectionAfter` | src/App.tsx:47 | the selection is cleared exactly when the pressed friend's id is already selected; otherwise the pressed record is selected; the pressed row's mark flips and no other id is marked |
| `Friends.SelectTwice` | src/App.tsx:47 | pressing the same row twice ends with that friend selected if it was selected before, and with nothing selected otherwise (so, from no selection, with no selection) |
| `Friends.Messages` | src/App.tsx:126-138 | of the three balance guards exactly one holds: "you owe" for a negative balance (showing its absolute value), "owes you" for a positive one, "even" for 0; the shown message gives back the balance |
| `Friends.AppendUniqueIds` | src/App.tsx:41-44 | appending a record keeps ids pairwise distinct if and only if they were distinct and the new id is not in the list |
| `Friends.AtMostOneSelectedRow` | src/App.tsx:119-122 | when ids are distinct, at most one row is marked selected |
| `Friends.RowsAfterSelection` | src/App.tsx:46-49 | when ids are distinct, pressing row k leaves row k alone marked, or no row marked if row k was marked before |
| `Friends.DuplicateIdMarksTwoRows` | src/App.tsx:41-44 | nothing rejects a duplicate id: appending a record with Clark's id makes the ids non-unique, and selecting Clark then marks two rows |
| `Friends.InitialFriendsFacts` | src/App.tsx:10-29 | the starting list is Clark (-7, "you owe 7"), Sarah (20, "owes you 20") and Anthony (0, "even"), in that order, with distinct ids |
| `SplitApp.AddFriendForm.constructor` | src/App.tsx:153-156 | a new form has an empty name and the default image URL |
| `SplitApp.AddFriendForm.HandleSubmit` | src/App.tsx:158-176 | an empty name or image emits nothing and leaves both fields as they were; otherwise it emits the record built from the fields and the id, and resets the fields to empty and the default URL |
| `SplitApp.App.constructor` | src/App.tsx:33-35 | the app starts with the three initial friends, the panel closed and no selection |
| `SplitApp.App.HandleAddShowFriend` | src/App.tsx:37-39 | the panel flag is negated and the list and selection are unchanged; opening the panel mounts a fresh form with default fields |
| `SplitApp.App.HandleAddFriend` | src/App.tsx:41-44 | the list becomes the old list with the record appended: one longer, with the earlier entries unchanged; the panel is closed whatever it was before; the selection is unchanged |
| `SplitApp.App.HandleSelection` | src/App.tsx:46-49 | the selection becomes the toggle-by-id result; the panel is closed in both cases; the list is unchanged |
| `SplitApp.App.SubmitNewFriend` | src/App.tsx:158-176 | an invalid submit changes nothing (the panel stays open with the same field values); a valid one appends the new record, closes the panel and resets the discarded form's fields |
| `SplitApp.ToggleTwice` | src/App.tsx:37-39 | two presses of the panel button restore the panel flag, and leave the list and selection unchanged; from an open panel the form is fresh again, with an empty name and the default URL |
| `SplitApp.SelectTwiceClears` | src/App.tsx:46-49 | two presses of the same row, starting with no selection, leave no selection, the panel closed and the list unchanged |
| `SplitApp.AddAndSelect` | src/App.tsx:33-49 | opening the panel, filling in a valid form, submitting and selecting the new row gives the initial list plus the new record; that record is selected and its row reads "even" |

## Left out

- Rendering is not modelled: the JSX markup, the CSS class names, the button captions, the `Button` component and the `friends.map` in `FriendsList` (src/App.tsx:79-98, 239-245). What a row shows is modelled only as its selected mark and its balance message.
- Bill splitting is not modelled. `FormSplitBill` (src/App.tsx:204-231) is static markup with no handler and no arithmetic. No code changes a balance after a friend is created, so there is no split computation to model. Its "Split bill" button (src/App.tsx:228, 239-242) has no `type`, so it submits the form natively, and the form (src/App.tsx:210) has no `onSubmit`. The browser then reloads the page, which puts the app back in its initial state. That reset is not modelled.
- The random id source `crypto.getRandomValues` (src/App.tsx:163) is nondeterministic. The id is a 32-bit unsigned parameter of the submit methods instead. The code never checks that ids are unique, so the model does not assume it. `Friends.AppendUniqueIds` and `Friends.DuplicateIdMarksTwoRows` show what follows.
- `e.preventDefault()` and the `onChange` handlers of the inputs (src/App.tsx:159, 184, 191) are DOM event plumbing and are not modelled. The form's fields are public variables, and typing is modelled by assigning to them.
- NumberText.Decimal: describes how JavaScript prints integers below 2^53 only. Larger numbers print as rounded digits or in exponent notation. The only number the model prints is a 32-bit id (src/App.tsx:163, 168), so this bound is never reached.
- Balances are `number` in the source and `int` in the model. NaN, infinities and fractional amounts are not modelled. A NaN balance would show none of the three messages.
- React's scheduling and batching of state updates are not modelled. Each handler is one atomic step. In particular, resetting the form after a successful submit is applied to a form that the same step unmounts.
- Object identity is not modelled: records are values. The selected friend is the record that was pressed, and nothing links it to the list entry with the same id, as in the source.
