# Filtration item filter scripts, modelled in Dafny

Filtration edits *item filter scripts*: ordered lists of blocks read top to bottom by a loot
overlay, where each block is either a rule block (conditions and display actions, its *block
items*) or a section marker. This project models two pieces of it.

- **The script document** (`ObjectModel`, `item_filter_script.dfy`): the block list and the group
  list of a new script, the one validation rule, and the colour-replacement batch rewrite. The
  rewrite takes a request per colour kind (text, background, border; each enabled or not, with an
  old and a new colour). A rule block qualifies only if every enabled kind has an item and the
  first such item carries the old colour. The first item of each enabled kind in a qualifying block
  then gets the new colour. Sections are never touched. `Replaced` is the reference definition of
  what one block becomes. `Script.ReplaceColors` is the in-place loop, and it is proved to leave
  every listed block exactly as `Replaced` says, computed from that block's own contents before
  the call.
- **The script view model** (`ViewModels`, `item_filter_script_view_model.dfy`): a class holding the
  script and a parallel list of block view models, each pointing at one block. The moves,
  insertions, paste and delete keep the invariant `Valid()`: the two lists have equal length, the
  i-th view model edits the i-th block, and no block is listed twice. Each operation's new lists are
  stated exactly (the target's new position, and the rest of the list is the old one with the
  target removed), together with the boundary no-ops and the dirty flag. The "sections only" view is
  a pure filter over the view-model list.
- `Collections` (`collections.dfy`) states the .NET list operations the source calls (`IndexOf`,
  `Insert`, `RemoveAt`, `Remove`, `Add` and `ObservableCollection.Move`) on sequences.

Blocks and view models are classes, because the source finds them by reference (`IndexOf`,
`Remove`) and rewrites blocks in place. Block items are values inside a block. A colour is four
8-bit channels. Dialog answers, the clipboard text, the block translator and the outcome of a save
are parameters of the methods that use them.

Points where the model follows the code closely:
- Candidacy looks at the *first* item of each enabled kind (`OfType<...>().First()`); later
  items of the same kind are neither checked nor recoloured.
- `DeleteBlock` asks for confirmation itself, so the answer is the `confirmed` parameter.
- `PasteBlock` inserts after the target, and appends only when the view-model list is empty. A
  null target is never turned into an append.

## Model

| member | source | states |
|---|---|---|
| `ObjectModel.Script.constructor` | Filtration.ObjectModel/ItemFilterScript.cs:26-35 | a new script has no blocks, no file path, and exactly one group, "Root", with no parent |
| `ObjectModel.Script.Validate` | Filtration.ObjectModel/ItemFilterScript.cs:48-58 | the result is empty exactly when the script has a block; otherwise it is exactly the one message "A script must have at least one block" |
| `ObjectModel.FirstIndexOf` | Filtration.ObjectModel/ItemFilterScript.cs:84-92 | finds the position of the first item of a kind: the item there has that kind, no earlier item does, and None means no item of that kind at all |
| `ObjectModel.IsCandidate` | Filtration.ObjectModel/ItemFilterScript.cs:82-113 | a block passing the presence test and then the colour test has, for every enabled kind, a first item of that kind carrying the old colour |
| `ObjectModel.CandidateIff` | Filtration.ObjectModel/ItemFilterScript.cs:82-113 | a block is a candidate iff, for every enabled kind, the first item of that kind exists and carries the old colour; disabled kinds impose nothing |
| `ObjectModel.CandidateNeedsPresence` | Filtration.ObjectModel/ItemFilterScript.cs:94-100 | a block with no item of some enabled kind is not a candidate |
| `ObjectModel.CandidateNeedsMatch` | Filtration.ObjectModel/ItemFilterScript.cs:102-110 | a block whose first item of some enabled kind has a colour other than the old one is not a candidate |
| `ObjectModel.CandidateIgnoresDisabledKinds` | Filtration.ObjectModel/ItemFilterScript.cs:95-107 | two item lists whose first items agree on every enabled kind are candidates alike: disabled kinds are never checked |
| `ObjectModel.FirstIndexOfKindsOnly` | Filtration.ObjectModel/ItemFilterScript.cs:66-77 | where the first item of a kind sits depends only on the kinds of the items, so overwriting one kind's colour never moves another kind's first item |
| `ObjectModel.RecoloredKeepsKinds` | Filtration.ObjectModel/ItemFilterScript.cs:64-78 | recolouring keeps the number of items, the kind of each item and the position of every kind's first item |
| `ObjectModel.ReplacedKeepsShape` | Filtration.ObjectModel/ItemFilterScript.cs:62-79 | the rewrite leaves a section block unchanged and never adds, removes or retypes an item of a rule block |
| `ObjectModel.ReplacedCandidate` | Filtration.ObjectModel/ItemFilterScript.cs:62-79 | in a candidate, the first item of every enabled kind ends with the new colour, and the first item of every disabled kind keeps its colour |
| `ObjectModel.ReplacedNonCandidate` | Filtration.ObjectModel/ItemFilterScript.cs:62 | no partial update: a rule block that fails on even one enabled kind comes out identical, even if it matches the other kinds |
| `ObjectModel.ReplacedIdempotent` | Filtration.ObjectModel/ItemFilterScript.cs:62-79 | rewriting a block a second time changes nothing more, so a block listed twice ends up as if it had been visited once |
| `ObjectModel.AllOrNothingExample` | Filtration.ObjectModel/ItemFilterScript.cs:82-113 | with text and border replacement enabled, a red-text block without a border colour is left alone, and a block with both gets both new colours and keeps its other items |
| `ObjectModel.SetFirstColor` | Filtration.ObjectModel/ItemFilterScript.cs:66-67 | only the first item of the kind gets the new colour; every other item is unchanged, and every kind's first item stays where it was |
| `ObjectModel.RecolorItems` | Filtration.ObjectModel/ItemFilterScript.cs:64-78 | the three per-kind overwrites applied to a candidate give exactly the reference recolouring |
| `ObjectModel.Script.ReplaceColors` | Filtration.ObjectModel/ItemFilterScript.cs:60-80 | every block in the list ends as `Replaced` makes it from its own pre-call contents (sections unchanged, non-candidates unchanged), and the block list itself is untouched |
| `ViewModels.SectionViewModels` | Filtration/ViewModels/ItemFilterScriptViewModel.cs:86-89 | the sections view holds exactly the view models of section blocks, drawn from the list |
| `ViewModels.SectionViewModelsConcat` | Filtration/ViewModels/ItemFilterScriptViewModel.cs:86-89 | the sections view of a concatenation is the concatenation of the views, so it keeps list order |
| `ViewModels.ScriptViewModel.constructor` | Filtration/ViewModels/ItemFilterScriptViewModel.cs:51-71 | a view model built for a script starts valid, clean and with nothing selected |
| `ViewModels.ScriptViewModel.Initialise` | Filtration/ViewModels/ItemFilterScriptViewModel.cs:180-194 | one fresh, clean view model per block, in the script's order, so the parallel invariant holds |
| `ViewModels.ScriptViewModel.ParallelIndex` | Filtration/ViewModels/ItemFilterScriptViewModel.cs:374-379 | under the invariant, a view model's `IndexOf` position equals its block's `IndexOf` position, and no view model is listed twice |
| `Collections.RepositionIsPermutation` | Filtration/ViewModels/ItemFilterScriptViewModel.cs:352-427 | a list holding the target at one position and the other elements in their old order is a permutation of the old list; the postconditions of `MoveBlockToTop` and `MoveBlockToBottom` have exactly this shape |
| `ViewModels.ToFront` | Filtration/ViewModels/ItemFilterScriptViewModel.cs:358-361 | removing the block by value and inserting it at 0, alongside `Move(i, 0)` on the view models, keeps the lists parallel and free of repeats, and leaves the others in order |
| `ViewModels.ToBack` | Filtration/ViewModels/ItemFilterScriptViewModel.cs:420-423 | removing the block by value and appending it, alongside `Move(i, last)` on the view models, keeps the lists parallel and free of repeats, and leaves the others in order |
| `ViewModels.SwapAdjacent` | Filtration/ViewModels/ItemFilterScriptViewModel.cs:378-382 | `RemoveAt` plus `Insert` one place over on the blocks, alongside `Move` on the view models, swaps the target with its neighbour in both lists |
| `ViewModels.ScriptViewModel.MoveBlockToTop` | Filtration/ViewModels/ItemFilterScriptViewModel.cs:352-365 | at index 0, nothing changes, dirty flag included; otherwise the target is first in both lists, the rest keep their order, and the flag is set |
| `ViewModels.ScriptViewModel.MoveBlockUp` | Filtration/ViewModels/ItemFilterScriptViewModel.cs:372-386 | at index 0, nothing changes; otherwise the target swaps with its predecessor in both lists, and the flag is set |
| `ViewModels.ScriptViewModel.MoveBlockDown` | Filtration/ViewModels/ItemFilterScriptViewModel.cs:393-407 | at the last index, nothing changes; otherwise the target swaps with its successor in both lists, and the flag is set |
| `ViewModels.ScriptViewModel.MoveBlockToBottom` | Filtration/ViewModels/ItemFilterScriptViewModel.cs:414-427 | at the last index, nothing changes; otherwise the target is last in both lists, the rest keep their order, and the flag is set |
| `ViewModels.ScriptViewModel.InsertNewBlock` | Filtration/ViewModels/ItemFilterScriptViewModel.cs:440-449 | a fresh block and view model land at the target's index + 1 in both lists, or at the end without a target, and the old lists are the new ones minus that position |
| `ViewModels.ScriptViewModel.AddBlock` | Filtration/ViewModels/ItemFilterScriptViewModel.cs:434-453 | a fresh rule block holding `NewRuleBlockBody` sits right after the target, or is appended when there is none; the others keep their order, it is selected, and the flag is set |
| `ViewModels.ScriptViewModel.AddSection` | Filtration/ViewModels/ItemFilterScriptViewModel.cs:460-471 | a fresh section described "New Section" sits right after the target; the others keep their order, it is selected, and the flag is set |
| `ViewModels.ScriptViewModel.PasteBlock` | Filtration/ViewModels/ItemFilterScriptViewModel.cs:319-344 | empty text or a failed translation changes nothing; otherwise the translated block goes right after the target (or becomes the only block), is selected, and the flag is set |
| `ViewModels.ScriptViewModel.DeleteBlock` | Filtration/ViewModels/ItemFilterScriptViewModel.cs:478-490 | when confirmed, exactly the target leaves both lists and the others keep their order; when not, the lists and flag are unchanged; the selection ends empty either way |
| `ViewModels.ScriptViewModel.SetDescription` | Filtration/ViewModels/ItemFilterScriptViewModel.cs:96-105 | setting the description stores it on the script and sets the dirty flag |
| `ViewModels.ScriptViewModel.IsDirtyIff` | Filtration/ViewModels/ItemFilterScriptViewModel.cs:135-147 | the script reads as saved exactly when its own flag and every block view model's flag are clear; any dirty block makes it dirty |
| `ViewModels.ScriptViewModel.CleanChildren` | Filtration/ViewModels/ItemFilterScriptViewModel.cs:149-155 | afterwards no block view model is dirty |
| `ViewModels.ScriptViewModel.RemoveDirtyFlag` | Filtration/ViewModels/ItemFilterScriptViewModel.cs:135-163 | afterwards `IsDirty()` (own flag or any dirty child) is false |
| `ViewModels.ScriptViewModel.SaveScriptAs` | Filtration/ViewModels/ItemFilterScriptViewModel.cs:218-246 | an invalid script or a cancelled dialog changes nothing; a failed save restores the previous file path and leaves the dirty state alone; a successful save leaves the chosen path and a clean script |
| `ViewModels.ScriptViewModel.SaveScript` | Filtration/ViewModels/ItemFilterScriptViewModel.cs:196-216 | with a path, a successful save keeps the path and cleans the script; without one, it behaves as save-as; a failed save changes neither path nor dirty state |

## Left out

- The WPF and WinForms layer: message boxes, the save dialog, `RelayCommand` wiring, property-change notifications, `Title`, `ContentId`, and the `Close` dialog flow. The user's answers become method parameters.
- `CopyBlock` and clipboard access. `CopyBlock` only writes the clipboard. The clipboard text that `PasteBlock` reads is a parameter.
- The block translator. Its grammar is not part of this model. It is a function parameter that may return no block, so the text round trip is not modelled.
- The persistence service and its exceptions. A save is a `saved` input bit, where false stands for a thrown exception.
- `ValidateScript`: its failure-message text and the dialog are left out. The model keeps only whether `Validate` returned no messages.
- The view-model factory, `ThemeComponents`, `ItemFilterScriptSettings`, `DateModified`, the `BlockGroups` getter and `SectionBrowserSelectedBlockViewModel`.
- `DisplayName`, `Filename` and `Filepath`, which rest on `Path.GetFileName`.
- WPF `Color` internals, including the floating-point ScRGB channels. A colour is an ARGB byte tuple compared field by field.
- Rule-block properties other than the items (description, group, enabled state). Block items other than the three colour kinds are opaque `OtherItem`s.
- Item identity. Items are values held by their block, so an item object shared between two blocks is not modelled.
- A target view model that is not in the list. Every list operation of the view model requires the target to be present, since `IndexOf` returning -1 makes the source misbehave. `AddSection` also requires a non-null target, as the source dereferences it.
- AddBlock: the new block's body is `NewRuleBlockBody`, a rule block with no items. `ItemFilterBlock`'s constructor is not part of this model, so this default is assumed, not derived.
- `Initialise` and the view-model constructor require the script's blocks to be distinct references. The source does not check this, but the parallel lists cannot stay in step without it.
- C# null strings. A script's file path is `None` until one is set. Its description starts as the empty string.
