# box-bot registration traversal, modelled in Dafny

box-bot is a Telegram bot. A new user gets a series of questions ("fields"). The
fields are grouped into branches and ordered by an order place inside each branch.
The bot remembers which question is pending for each user and records every
accepted answer. This project models that state machine and proves what it does.

- `wrappers.dfy`: `Option` and `Result`.
- `custom_types.dfy` (`CustomTypes`): the closed status enums and their enum
  string values, with round-trip and distinctness lemmas.
- `db_model.dfy` (`DbModel`): the rows the flow touches (bot status, branch,
  field, user, answer row, keyboard key, settings). It also holds their column
  defaults, the primary-key and unique-key rules, and the foreign keys as
  predicates.
- `fields.dfy` (`Fields`): the three catalog queries as functions over the field
  and answer tables. It also defines the walk that repeated next-field queries
  perform, with lemmas that the walk is strictly increasing, terminates and is
  complete.
- `user_handlers.dfy` (`UserHandlers`): the handlers as methods of a `Store`
  class. The class holds the user table (keyed by chat id), the answer table and
  the id counters; the question catalog is read-only. Each handler is one atomic
  step. It returns the replies it would send and states its whole new state.
  `Valid()` records the schema's keys and references, and every handler keeps it:
  unique chat ids and user ids, unique and increasing answer-row ids, and the
  foreign keys of users and answer rows.
- `router.dfy` (`Router`): the admin `set_bot_status` switch, as a method on the
  bot-status table. It also builds the rows of the `/users` page.
- `scenarios.dfy` (`Scenarios`): a registration run on a three-question branch,
  derived from the handler contracts alone.

The source disagrees with itself in places. The model settles each point as
follows:

- `FieldStatusEnum` has no `MAIN` member, yet both answer handlers compare
  against `FieldStatusEnum.MAIN`. `FieldStatus` here has `Inactive`, `Normal` and
  `Main`, and `Main` is given the value `"main"`. As written, evaluating
  `FieldStatusEnum.MAIN` raises `AttributeError`: every accepted answer would fail
  after the next-question reply and before the user update and the answer insert,
  and the `/users` page would fail too. The model follows the evidently intended
  handlers, in which main fields exist.
- `Field` in the schema has a string `branch` and no order place. The catalog
  queries use `branch_id`, `order_place` and a `FieldBranch` table that the schema
  does not define. The model follows the queries: a field has a branch id and an
  integer order place, and a branch is `(id, key)`.
- The handlers import `get_first_user_field_question`, while the helper is called
  `get_first_field_question`. They are taken to be the same function.
- The first-field query has no inactive filter, so a new user can be placed on an
  inactive field. The model follows the query, and `Fields.FirstFieldMayBeInactive`
  exhibits such a catalog. A "pending question is never inactive" invariant
  therefore does not hold and is not claimed.

Other choices:

- Python truthiness is written out. An empty `document_bucket` means a text
  question. A photo link of `None` or `""` means no photo.
- An f-string renders a missing value as `"None"`.
- The status functions give each enum member's `.value` string. The mapped
  enum columns hold the member names (`'ON'`, `'INACTIVE'`, ...), and the model
  does not model that column encoding.
- Where `LIMIT 1` leaves a tie open, the model picks the earliest row in table
  order.
- The `set_bot_status` UPDATE has no WHERE clause, so a recognised action
  applies to every row of the bot-status table.

## Model

| member | source | states |
|---|---|---|
| CustomTypes.BotStatusValue | src/utils/custom_types.py:4-16 | the enum value of each bot status: on, off, service, restart, restarting (partner: StatusValuesRoundTrip) |
| CustomTypes.UserStatusValue | src/utils/custom_types.py:31-36 | the enum value of each user status: inactive, active (partner: StatusValuesRoundTrip) |
| CustomTypes.FieldStatusValue | src/utils/custom_types.py:45-50 | the enum value of each field status: inactive, normal, and main for the handlers' MAIN (partner: StatusValuesRoundTrip) |
| CustomTypes.KeyboardKeyStatusValue | src/utils/custom_types.py:61-68 | the enum value of each key status: inactive, normal, deferred, me (partner: StatusValuesRoundTrip) |
| CustomTypes.ParseBotStatus | src/utils/custom_types.py:4-16 | a parsed string is the value of the status it yields; a string no status has is rejected |
| CustomTypes.ParseUserStatus | src/utils/custom_types.py:31-36 | the same for the two user statuses, inactive and active |
| CustomTypes.ParseFieldStatus | src/utils/custom_types.py:45-50 | the same for the field statuses inactive, normal and main |
| CustomTypes.ParseKeyboardKeyStatus | src/utils/custom_types.py:61-68 | the same for the key statuses inactive, normal, deferred and me |
| CustomTypes.StatusValuesRoundTrip | src/utils/custom_types.py:4-68 | taking the value of any status of the four enums and parsing it back yields the same member |
| CustomTypes.StatusValuesDistinct | src/utils/custom_types.py:4-68 | within each enum, distinct members have distinct string values |
| DbModel.NewBotStatusRow | src/utils/db_model.py:35-37 | a bot status row inserted with only its id has the bot on and registration open |
| DbModel.NewField | src/utils/db_model.py:58-65 | a new field is inactive, with no question text, answer options or bucket |
| DbModel.NewUser | src/utils/db_model.py:74-82 | a new user is inactive, has not banned the bot, and keeps the given chat id, name and pending field |
| DbModel.NewKeyboardKey | src/utils/db_model.py:110-115 | a key inserted with only its required columns is inactive and has no photo link |
| DbModel.FieldById | src/utils/db_model.py:58 | a found field is in the table with that id; no result means no field has that id |
| DbModel.FieldByKey | src/utils/db_model.py:59 | a found field is in the table with that key; no result means no field has that key |
| DbModel.FieldByIdFinds | src/utils/db_model.py:58 | with the primary key, looking up a field's own id returns that field |
| DbModel.FieldByKeyFinds | src/utils/db_model.py:59 | with the unique key index, at most one field has a key, and lookup by key returns it |
| Fields.StartBranchFields | src/bot/helpers/fields.py:18-22 | exactly the fields joined to a branch with the given key |
| Fields.Following | src/bot/helpers/fields.py:33-38 | exactly the fields of the same branch with a larger order place that are not inactive |
| Fields.LeastOrdered | src/bot/helpers/fields.py:23-24 | ORDER BY order place LIMIT 1: a member with the least order place, none only on an empty input |
| Fields.FirstFieldQuestion | src/bot/helpers/fields.py:13-26 | the result is a field of the start branch with the least order place; it fails exactly when the branch has no fields |
| Fields.NextFieldInBranch | src/bot/helpers/fields.py:28-42 | the result is a later, non-inactive field of the same branch with the least order place; None exactly when there is no such field |
| Fields.FollowingShrinks | src/bot/helpers/fields.py:35-36 | stepping to the next field strictly shrinks the set of candidates, so repeated stepping terminates |
| Fields.Walk | src/bot/helpers/fields.py:34-41 | repeated next-field queries visit later non-inactive fields of the branch in strictly increasing order place, in at most as many steps as there are candidates |
| Fields.WalkComplete | src/bot/helpers/fields.py:34-41 | with distinct order places, the walk visits every candidate field that follows the start |
| Fields.RegistrationVisitsBranch | src/bot/helpers/fields.py:13-42 | from the first field of the start branch, registration visits every non-inactive field of that branch |
| Fields.UserFieldValueByKey | src/bot/helpers/fields.py:44-57 | the result is a value this user recorded on a field with that key; None exactly when there is no such row |
| Fields.RowsOf | src/bot/helpers/fields.py:53 | exactly the answer rows of one user |
| Fields.ValueByKeyIgnoresOtherUsers | src/bot/helpers/fields.py:53 | the lookup is the same over the user's own rows only |
| Fields.ValueByKeyReadsKeyedField | src/bot/helpers/fields.py:51-52 | with unique keys, a value is found exactly when the user answered the one field carrying the key |
| Fields.FirstFieldMayBeInactive | src/bot/helpers/fields.py:17-23 | an inactive field can be the first question, although the next-field query would skip it |
| UserHandlers.CommandOf | src/bot/user_handlers.py:108-141 | an entity ending in the help command is help; otherwise one ending in the start command is start |
| UserHandlers.FirstCommand | src/bot/user_handlers.py:104-142 | the command of the first entity that carries one; none exactly when no entity does |
| UserHandlers.CommandAnswer | src/bot/user_handlers.py:108-141 | help fills the help template and start the restart template; with a pending field the argument is its question and the keyboard its answer options, without one the registration-complete text and the user keyboard |
| UserHandlers.ExpectsAttachment | src/bot/user_handlers.py:163 | a field expects an attachment exactly when its bucket is neither None nor empty (Python truthiness) |
| UserHandlers.HasPhoto | src/bot/user_handlers.py:220 | a key has a photo exactly when its link is not in [None, ''] |
| UserHandlers.KeyboardKeyReply | src/bot/user_handlers.py:220-237 | no photo: the text alone; a photo and text of at most 1024 characters: one captioned photo; longer text: the photo, then the text; no caption exceeds 1024; in the two-message case the photo is sent bare |
| UserHandlers.LeavesMain | src/bot/user_handlers.py:181-197 | with a next field: the current is main and the next is not; at the end of the branch: the current is main |
| UserHandlers.Advance | src/bot/user_handlers.py:179-197 | the pending field becomes the next field's id or none; the user becomes active exactly when already active or leaving a main field for a non-main one or for the end; status never drops; other columns unchanged |
| UserHandlers.AnswerAllOutcome | src/bot/user_handlers.py:166-197 | answering to the end of a path leaves no pending field, and the user is active exactly when already active or some answered field was main |
| UserHandlers.CompletingWalk | src/bot/user_handlers.py:166-197 | completing the walk of next-field queries ends the registration with the same activation rule |
| UserHandlers.AdvanceReply | src/bot/user_handlers.py:174-192 | with a next field: its question with its answer-option keyboard; at the end: the registration-complete text with the user keyboard |
| UserHandlers.Format | src/bot/user_handlers.py:314 | an f-string renders a present value as itself and None as "None"; only None and a literal "None" render as "None" |
| UserHandlers.DocumentValue | src/bot/user_handlers.py:311-314 | the stored name is the rendered file name, a '.', then the rendered extension |
| UserHandlers.LastDot | src/bot/user_handlers.py:314 | the position of the last '.' of a name, or none when it has no '.' |
| UserHandlers.DocumentValueSplits | src/bot/user_handlers.py:311-314 | a stored `"{filename}.{extension}"` splits back at its last dot into the rendered name and extension |
| UserHandlers.Store.constructor | src/utils/db_model.py:67-99 | an empty store over a well-formed catalog satisfies the schema invariant |
| UserHandlers.Store.Valid | src/utils/db_model.py:58-99 | the schema's rules on the store: unique field ids and keys, chat ids as user keys, unique user ids, unique answer-row ids in insertion order, ids below their counters, and the foreign keys of pending fields and answer rows |
| UserHandlers.Store.PendingField | src/bot/user_handlers.py:106 | the pending field, when there is one, is the catalog field with the user's current field id; there is none exactly when the user has no current field id or no catalog field has it |
| UserHandlers.Store.StartHelp | src/bot/user_handlers.py:68-142 | registration closed: a new user is refused and nothing changes; open: the user is created inactive on the first question, with no answer row, or the first-field error is returned; a known user only gets the command answer and nothing changes |
| UserHandlers.Store.CommandReply | src/bot/user_handlers.py:104-142 | the reply answers the first command entity, with the pending question or the registration-complete text; nothing when no entity has a command |
| UserHandlers.Store.Accept | src/bot/user_handlers.py:166-213 | the user row is advanced to the next field and exactly one answer row (user id, current field id, value) is appended; the reply is the next question or the completion text |
| UserHandlers.Store.HandleText | src/bot/user_handlers.py:144-239 | unknown user: an error reply and no change; a pending attachment field is re-asked and nothing is written; a pending text field takes the answer as in Accept; no pending field: the keyboard-key reply; every status only rises |
| UserHandlers.Store.HandlePhotoDocument | src/bot/user_handlers.py:241-334 | unknown user: an error reply and no change; a pending text field is re-asked and nothing is written; a pending attachment field stores `"{filename}.{extension}"` with the name looked up under the document-name field; every status only rises |
| UserHandlers.Store.SetHaveBannedBot | src/bot/user_handlers.py:32-42 | only the have-banned-bot flag of the user with that chat id changes; no such user, no change |
| UserHandlers.Store.UserBannedBot | src/bot/user_handlers.py:56-60 | the user's flag becomes true and nothing else changes |
| UserHandlers.Store.UserUnbannedBot | src/bot/user_handlers.py:62-66 | the user's flag becomes false and nothing else changes |
| Router.ParseAction | src/ui/router.py:61-70 | a recognised action string is the name of the action it yields; any other string is no action |
| Router.ActionName | src/ui/router.py:61-70 | the action string of each admin action |
| Router.ActionNamesRoundTrip | src/ui/router.py:61-70 | each action's own name is recognised as that action |
| Router.ApplyAction | src/ui/router.py:61-70 | turn_off, turn_on and restart set the bot status to off, on and restart; the registration actions set the flag to true and false; each action changes one column only |
| Router.ApplyActionIdempotent | src/ui/router.py:61-70 | applying an action twice has the effect of applying it once |
| Router.BotStatusTable.constructor | src/ui/router.py:54-80 | the table holds the given rows |
| Router.BotStatusTable.SetBotStatus | src/ui/router.py:54-80 | a recognised action is applied to every row; any other string leaves the table as it was |
| Router.Insert | src/ui/router.py:92 | inserting into a sorted sequence keeps it sorted and adds exactly that element |
| Router.SortBy | src/ui/router.py:92-98 | ORDER BY: a permutation of the input in ascending key order |
| Router.MainFields | src/ui/router.py:89-91 | exactly the main fields |
| Router.FieldColumns | src/ui/router.py:89-94 | the page's columns are exactly the main fields, in ascending id order |
| Router.CellOf | src/ui/router.py:108-111 | a cell carries the row's value and the document bucket of the field the row answers |
| Router.Cells | src/ui/router.py:107-113 | one cell per field id the user answered |
| Router.LaterValueWins | src/ui/router.py:107-113 | the cell of a field shows its last answer row and that field's bucket |
| Router.RowOf | src/ui/router.py:102-113 | a row has the user's id, chat id and name, and a cell for exactly the fields the user answered |
| Router.RowsFor | src/ui/router.py:114 | one row per user, in the same order |
| Router.UsersPage | src/ui/router.py:96-115 | one row per user, in ascending user id, each the row of some user, and every user's row present |
| Scenarios.Join | src/bot/user_handlers.py:85-102 | `/start` on an empty store creates the user on the first question, inactive, with no answers |
| Scenarios.AnswerA | src/bot/user_handlers.py:162-213 | a text answer to a main field followed by a main field moves on and keeps the user inactive |
| Scenarios.TextForB | src/bot/user_handlers.py:163-164 | a text reply to an attachment field writes nothing |
| Scenarios.UploadB | src/bot/user_handlers.py:259-332 | an upload for an attachment field is stored under the recorded name, and leaving a main field for a normal one activates the user |
| Scenarios.UploadName | src/bot/user_handlers.py:314 | the stored upload name is "alpha.pdf" |
| Scenarios.AnswerC | src/bot/user_handlers.py:184-213 | answering the last field clears the pending field and appends the last answer |
| Scenarios.SwitchOff | src/ui/router.py:61-70 | on a default bot status row, turn_off and deactivate_registration each set their column, and an unknown action changes nothing |

## Left out

- Telegram transport is not modelled: `reply_markdown`, `reply_photo`, `parse_entities`, `get_file` and `download_to_memory` are I/O. Replies are returned as values; message entities are a parameter.
- `construct_keyboard_reply` and `get_keyboard_to_user` are not part of this model. Keyboards appear only as the field's answer options or the user id they are built from.
- `get_keyboard_key_obj_by_key_text` is not part of this model. The key it finds, if any, is a parameter of `Store.HandleText`.
- `filetype.guess_extension` is a foreign library. The sniffed extension is a parameter of `Store.HandlePhotoDocument`, and `None` renders as `"None"`.
- `text_markdown_urled` is Telegram's escaping. The rendered text is a parameter of `Store.HandleText`.
- The MinIO upload and the MinIO proxy routes are network and object-store calls.
- FastAPI wiring, templates, static files, token checks, and the `/`, `/status`, `/settings` and `/healz` routes are web glue.
- Sessions, commit and rollback, and concurrency are not modelled: each handler is one atomic step, and same-user races are out of scope.
- The `IntegrityError` of a duplicate user insert is not modelled. Users are keyed by chat id and created only when the chat id is absent, so one atomic step cannot raise it.
- `set_bot_status`'s JSON response, and the rollback after a failed commit, are not modelled.
- `datetime.now()` timestamps and loguru logging are not part of the traversal.
- Settings columns and tables the registration flow never reads are not modelled: groups, logs, notifications and the other message templates.
- Router.RowOf: the source iterates `user.fields_values`, a relationship with no ordering, so the database decides which of two answer rows for one field the page keeps. The model takes the answer table's order, so "later" in `Router.LaterValueWins` means later in the answer table.
- Router.RowOf: cells are keyed by the integer field id instead of the string `"field-{id}"`. The two keyings determine each other.
- Fields.UserFieldValueByKey: the database may return any matching row. The model returns the earliest, so the contract promises only "some matching row".
- Fields.FirstFieldQuestion and Fields.NextFieldInBranch: the model breaks ties in order place by table order. The source leaves ties to the database, and the contracts promise only "a least one".
- UserHandlers.Store.PendingField: `Store.Valid()` guarantees that a pending field id names a catalog field, so a dangling reference never has to be followed.
