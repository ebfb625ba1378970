# Birthday bot — a Dafny model

A Telegram bot (`mybot.py`) that asks a user for a name and a birthdate,
stores them in a `users` table, greets the user with a remark about their
age, and answers `/people` (everyone registered, ordered by `created_at`)
and `/birthdays_today [date]` (the users born on that month and day).

This project models the logic of that file, with the chat framework, the
database engine and the clock taken out:

- `dates.dfy` (module `Dates`): calendar dates, `strptime(text, '%d.%m.%Y')`
  and `strftime('%d.%m.%Y')`.
- `ages.dfy` (module `Ages`): `get_age` with "today" as a parameter,
  `get_age_letter` and `get_age_message`.
- `names.dfy` (module `Names`): the name rule `^[a-zA-Zа-яА-Я]+$` and the
  case folding used for the case-insensitive lookup (`ilike`).
- `tokens.dfy` (module `Tokens`): `str.split(" ")` on the text of
  `/birthdays_today`.
- `users.dfy` (module `Users`): the `users` table as a class `UserStore`
  holding a sequence of rows. It models `update_user`, `get_birthday_users`
  and the listing ordered by `created_at`.
- `conversation.dfy` (module `Conversation`): the `Form` states and the
  sessions of the framework's in-memory storage, one per storage key. The
  storage keys a dialogue by chat and user, and the model's `user` stands for
  that pair. The class `Bot` holds these, and its methods are the handlers.
  `Route` is the order in which the framework tries the handlers.
- `wrappers.dfy`: `Option` and `Result`.

Details of the code that the model keeps as written:

- `/remind_birthday` only sets the state (`Form.name.set()`). It keeps any data
  left in the session.
- After a successful registration, `Form.next()` leaves the last state and sets
  "no state". It does not clear the session data.
- The conflict answer carries the name that was typed (`update_user` formats
  its own argument), not the stored spelling.
- The date format takes a day and a month of one or two digits, as `strptime`
  does, not exactly two.

`get_age_letter` applies its 10–14 exception to the whole age, not to its last
two digits. It therefore agrees with the Russian plural rule for "год" on every
age except those of 100 or more ending in 11–14. For example, 111 gets "год"
and 112 gets "года". `Ages.AgeLetterAgreesWithPlural` states this exactly.

## Model

| member | source | states |
|---|---|---|
| Ages.Age | mybot.py:49-52 | the age is the year difference or one less |
| Ages.AgeNegativeIffFuture | mybot.py:49-52 | the age is negative exactly when the birthdate is strictly after today |
| Ages.AgeCountsAnniversaries | mybot.py:49-52 | `n <= Age(birth, today)` exactly when the `n`-th anniversary (year + n, same month and day) is not after today, so the age counts completed years |
| Ages.AgeMonotone | mybot.py:49-52 | the age at a later day is never smaller |
| Ages.AgeLetter | mybot.py:39-46 | the word is one of "год", "года", "лет"; "год" only for a last digit 1 and "года" only for a last digit 2–4, never for ages 10–14 |
| Ages.AgeLetterAgreesWithPlural | mybot.py:39-46 | for every age ≥ 0, `get_age_letter` equals the Russian plural rule for "год" if and only if the age is not ≥ 100 with last two digits 11–14 |
| Ages.BandOf | mybot.py:55-67 | the threshold chain picks a band whose range contains the age |
| Ages.BandOfIsRange | mybot.py:55-67 | the threshold chain picks band `b` exactly when the age lies in `b`'s range (<1, 1–6, 7–17, 18–22, 23–64, ≥65), so the bands are disjoint and exhaustive |
| Ages.AgeMessageOf | mybot.py:55-67 | a welcome exactly for ages below 1; otherwise a remark that carries the age, `get_age_letter(age)` and the band whose range contains the age |
| Names.MatchName | mybot.py:129 | the anchored match of `[a-zA-Zа-яА-Я]+` succeeds if and only if the text is non-empty and every character is a Latin or basic Cyrillic letter |
| Names.FoldChar | mybot.py:84 | the fold maps a capital A–Z or А–Я to the character 32 code points above it (its small letter), keeps every other character, leaves no capital, and keeps whether a character is a name letter |
| Names.FoldCharIdentifies | mybot.py:84 | two characters fold to the same character exactly when they are equal or one is the capital of the other |
| Names.Fold | mybot.py:84 | folding a name keeps its length and folds it character by character |
| Names.FoldIdempotent | mybot.py:84 | folding twice gives the same as folding once |
| Names.SameNameUpToCase | mybot.py:84 | two names are the same identity for the store if and only if they have the same length and each pair of characters is equal or a capital and its small letter |
| Dates.DaysInMonth | mybot.py:142 | every month has 28 to 31 days: 29 exactly for February of a leap year, 30 exactly for April, June, September and November, 31 exactly for January, March, May, July, August, October and December (so 28 exactly for February of a common year) |
| Dates.ValidDate | mybot.py:142 | a valid 29 February lies in a leap year, and a valid 31st lies in a month of 31 days |
| Dates.Num | mybot.py:142 | the value of a digit field is below 10 to the power of its length |
| Dates.ParseDate | mybot.py:142 | `strptime(text, '%d.%m.%Y')`: every date it accepts exists in the calendar (years 1–9999) |
| Dates.ParseDateOfFields | mybot.py:142 | completeness: a day and a month of 1–2 digits and a year of 4 digits, joined by dots, parse to the date they name exactly when that date exists |
| Dates.ParseDateFields | mybot.py:142 | soundness: every accepted text is such a day, month and year joined by dots, and the parsed date is the one they name |
| Dates.Pad2 | mybot.py:190 | strftime's two-digit field: two digits whose value is the number |
| Dates.Pad4 | mybot.py:190 | strftime's four-digit year field: four digits whose value is the number |
| Dates.Format | mybot.py:190 | `strftime('%d.%m.%Y')` is ten characters long |
| Dates.ParseFormat | mybot.py:184-190 | round trip: parsing the printed form of a valid date gives that date back |
| Tokens.Split | mybot.py:180 | `split(" ")` yields at least one part, no part contains a space, and joining the parts with spaces gives the text back |
| Tokens.SplitJoin | mybot.py:180 | splitting undoes joining space-free parts |
| Tokens.SplitWhole | mybot.py:180 | a text without a space is a single token |
| Tokens.SplitAtFirst | mybot.py:180 | the text before the first space is the first token, followed by the tokens of the rest |
| Users.NoneAfterLater | mybot.py:147-150 | if no stored birthdate is after one day, none is after any later day |
| Users.BirthdayNames | mybot.py:70-76 | the query returns at most one name per row |
| Users.BirthdayNamesExact | mybot.py:70-76 | the month/day query returns a name exactly when some row with that name has a birthdate on that month and day, in any year |
| Users.RegisteredAnsweredOnce | mybot.py:70-91 | after a row is appended to a table whose names are distinct up to case, querying its month and day returns its name exactly once |
| Users.InsertByCreation | mybot.py:169 | inserting a row adds exactly that row and keeps the rows in non-decreasing `created_at` order |
| Users.InsertedAfterFirst | mybot.py:169 | a row that is not later than the inserted row and all later rows can stay first in the ordered listing |
| Users.UserStore.constructor | mybot.py:22-31 | the table starts empty and satisfies its invariant |
| Users.UserStore.FindByName | mybot.py:84-85 | finds nothing exactly when no stored name equals the given one up to case; otherwise finds a matching row (the first in table order; the query itself has no order) |
| Users.UserStore.Register | mybot.py:82-91 | a name taken up to case fails with that name and leaves the table unchanged; otherwise exactly one row with the next id, the given timestamp, name and birthdate is appended and the old rows are untouched; names stay pairwise distinct up to case |
| Users.UserStore.BirthdayUsers | mybot.py:70-77 | returns the names of the rows whose birthdate has the query's month and day, in insertion order (the query itself has no order) |
| Users.UserStore.Listing | mybot.py:169-172 | every row exactly once (a permutation of the table), in non-decreasing `created_at` order |
| Conversation.Next | mybot.py:97-99 | `Form.next()` always changes the state; it leads to no state exactly from the birthday step and to the name step exactly from no state |
| Conversation.Route | mybot.py:102-178 | the whole dispatch table: `/cancel` reaches the cancel handler in every state; in the name and birthday steps every other message, commands included, goes to that step's handler; in no state `/start` and `/help` reach the help handler, `/remind_birthday`, `/people` and `/birthdays_today` their own handlers, and a plain text no handler; each handler is reached in exactly these cases |
| Conversation.QueryDate | mybot.py:180-186 | the queried date is today or a valid date parsed from the second token |
| Conversation.QueryDateOfToken | mybot.py:180-186 | for `/birthdays_today arg`, the query is the date `arg` names when it parses and today when it does not |
| Conversation.QueryDateOfTokens | mybot.py:180-186 | tokens after the second are ignored: the query is still the date of the second token, or today when it does not parse |
| Conversation.QueryDateOfArgument | mybot.py:180-186 | `/birthdays_today dd.mm.yyyy` queries exactly that date |
| Conversation.QueryDateWithoutArgument | mybot.py:180-182 | without an argument the query is about today |
| Conversation.Bot.constructor | mybot.py:33-36 | no sessions and an empty store |
| Conversation.Bot.Cancel | mybot.py:111-118 | in no state: no answer and nothing changes; otherwise the user's state and data are dropped (back to no state) and the other sessions are untouched |
| Conversation.Bot.RemindBirthday | mybot.py:121-124 | moves the user to the name step and keeps the stored data; other sessions are untouched |
| Conversation.Bot.ProcessName | mybot.py:127-136 | a name that breaks the rule is answered and changes nothing; an accepted name becomes the pending name and the state moves to the birthday step; other sessions are untouched |
| Conversation.Bot.ProcessBirthday | mybot.py:139-163 | an unparseable or future date changes neither session nor store (rows and next id); otherwise the date is kept in the session, a taken name leaves the state at the birthday step with the store unchanged, and a new name appends one row with the next id, advances the id and returns to no state with the age message; other sessions are untouched; no stored birthdate is ever after today |
| Conversation.Bot.ShowPeople | mybot.py:166-175 | answers with all rows, each once, ordered by `created_at` |
| Conversation.BirthdaysReply | mybot.py:178-195 | the `/birthdays_today` answer, listed or "none", carries the queried date; a list is never empty; every name born on that month and day is in it, and each listed name belongs to a row born on that month and day |
| Conversation.Bot.ShowBirthdays | mybot.py:178-195 | answers with the names born on the queried month and day, or with "none" for that date when there are none |
| Conversation.Bot.Handle | mybot.py:102-195 | for each route, the new session of the user and the answer: help answers the help text; cancel does nothing in no state and otherwise clears the session; remind moves to the name step keeping the data; the name step stores a valid name and advances, or rejects it; the birthday step follows every path of `process_birthday`, including the store's rows and next id; `/people` and `/birthdays_today` answer as their handlers and change no session; a plain text in no state gets no answer. Other users' sessions are untouched, only the birthday step writes to the store (its rows and its next id), and no stored birthdate is after today |
| Conversation.ScenarioInputs | mybot.py:127-163 | "Anna123" is rejected and "Anna" accepted; "15.03.1990" parses; on 15.06.2024 the greeting is the working-age remark for 34 "года" |

## Left out

- Chat transport: `Bot`, `Dispatcher`, polling, `message.reply`, async/await. A message is an `Event`: the command the transport recognised, plus the text. Answers are `Reply` values without their Russian wording.
- Command recognition (the leading `/`, `@botname` suffixes, letter case) belongs to the framework and is taken as given in `Event.command`.
- The database engine, SQL, sessions, commit and rollback: the table is a sequence in `UserStore`. The `unique=True` constraint and the race between the lookup and the insert are concurrency and backend behaviour and are not modelled. Store failures other than a taken name (the generic failure answer) are not modelled.
- The SQL queries of `get_birthday_users` and the name lookup have no `ORDER BY`, so the database may return rows in any order. The model returns them in insertion order, and the lookup finds the first such row. Only `/people` has a defined order (`created_at`).
- The store starts empty. `create_all` keeps an existing `users` table, so a restart over rows already stored is not modelled.
- `updated_at` is never updated (no operation edits a row) and is not modelled.
- The clock: today is a parameter of every handler. The `created_at` default is `datetime.now()` evaluated once at start-up, so it is the `Bot.importTime` constant passed to `Register`.
- Users.UserStore.Register: compares names by the explicit fold of Latin A–Z and Cyrillic А–Я. The backend's `ilike` may fold more letters (PostgreSQL) or only ASCII (SQLite's default LIKE). The name is treated as a literal, which matches `ilike` for the letter-only names the dialogue passes, since they hold no `%` or `_`.
- Names.MatchName: Python's `$` also matches before a trailing newline; this quirk is not modelled.
- Dates.ParseDate: `strptime` also accepts a day written with a leading space and non-ASCII decimal digits; only ASCII digits are modelled.
- Dates.Format: pads the year to four digits; the platform's `strftime` may print years below 1000 unpadded.
- Messages without text (`message.text` is `None`) crash the handlers in the bot; they are not modelled.
- The unused `UserModel()` built in `process_birthday` has no effect and is not modelled.
- The help answer of `/start` and `/help` is a constant (`HelpText`).
