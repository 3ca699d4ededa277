# Contact book assistant — a verified model of its core

The assistant keeps an address book of contacts. Each contact (a `Record`)
has a name, a list of phone numbers and an optional birthday. The book
(`AddressBook`) maps names to records in insertion order. Command handlers
take the words the user typed after the command and answer with a text, or
raise an error for the caller to report. `birthdays` lists whom to
congratulate in the coming week. A birthday that falls on a Saturday or
Sunday moves to the following Monday.

The model covers `operations/commands.py`:

- **Outcomes** (`outcomes.dfy`): `Option`, `Result` and the error kinds the
  core raises.
- **Calendar** (`calendar.dfy`): the proleptic Gregorian dates of Python's
  `datetime.date`, for years 1 to 9999.
  - Each date has an ordinal (1 is 0001-01-01) and a weekday (0 is Monday).
  - `date.replace(year=)` rejects a 29 February in a non-leap year and any
    year out of range.
  - `find_next_weekday(d, 0)` returns the first date on or after `d` with the
    wanted weekday.
- **BirthdayRule** (`birthday_rule.dfy`): the date a contact is congratulated
  on.
  - The birthday's next anniversary on or after today,
  - then moved past a weekend.
- **Seqs** (`seqs.dfy`): removing all copies of a value, distinctness, and
  `str.join`.
- **Contacts** (`record.dfy`): the `Record` class, whose methods update
  `phones` and `birthday` in place, and its text form.
- **Book** (`address_book.dfy`): the `AddressBook` class.
  - `names` keeps the dictionary's insertion order.
  - `records` maps each name to its `Record` object.
  - `Upcoming` is the specification of `get_upcoming_birthdays`: the
    per-record rule `Greeting`, run over the records in order by `Collect`.
    The method's loop is proved against it.
- **Commands** (`commands.dfy`): the seven handlers, as methods when they
  change the book and as functions when they only read it, except
  `Birthdays`, which calls the `UpcomingBirthdays` method.

The validation done by the field classes is a parameter of the model
(`Fields`):
- whether a text is an acceptable phone number;
- how a text parses into a birthday;
- how a date is written back as text.

Today's date is a parameter too.

The model follows the code in these points:
- `edit_phone` raises a plain `ValueError` (modelled as `NotFound`) when the
  old phone is absent.
- `add_contact` stores a new contact before its phone is checked. A
  rejected phone therefore leaves a new contact with no phones in the book.
- `get_upcoming_birthdays` does no special handling of 29 February. In a
  non-leap year, such a birthday makes the whole command raise
  (`DateOutOfRange`). The same happens when the next anniversary would fall
  after 9999-12-31.

## Model

| member | source | states |
|---|---|---|
| Contacts.Record.constructor | operations/commands.py:9-12 | a new record has the given name, no phones and no birthday |
| Contacts.Record.AddBirthday | operations/commands.py:14-15 | a parsable text replaces the birthday; otherwise it raises InvalidBirthday and the birthday is unchanged |
| Contacts.NewPhone | operations/commands.py:18 | a phone is built exactly when the text is valid and keeps the text as its value; otherwise InvalidPhone |
| Contacts.Record.AddPhone | operations/commands.py:17-18 | a valid phone is appended at the end; an invalid one raises InvalidPhone and leaves the phones unchanged |
| Contacts.Record.RemovePhone | operations/commands.py:20-21 | the new phones are the old ones with every phone equal to the text removed, order kept |
| Seqs.Without | operations/commands.py:21 | the result holds every other element exactly as often as before, and no copy of the removed value |
| Seqs.WithoutAppend | operations/commands.py:21 | removal works element by element: removing from a concatenation concatenates the removals, so order is kept |
| Seqs.WithoutAbsent | operations/commands.py:21 | removing leaves the list unchanged exactly when the value does not occur in it |
| Seqs.WithoutMember | operations/commands.py:21 | a value is still there after removal exactly when it was there and is not the removed value |
| Seqs.WithoutIdempotent | operations/commands.py:21 | removing the same value twice is the same as removing it once |
| Contacts.FirstMatch | operations/commands.py:30-34 | the index of the first phone whose value equals the text, or none exactly when no phone matches |
| Contacts.Record.FindPhone | operations/commands.py:30-34 | the scan returns the first matching phone, or nothing when no phone matches |
| Contacts.Record.EditPhone | operations/commands.py:23-28 | an absent old phone raises NotFound; an invalid new phone raises InvalidPhone; in both cases the phones are unchanged; otherwise only the first match is replaced, at its position |
| Contacts.PhoneTexts | operations/commands.py:37 | one text per phone, in order, each the phone's value |
| Contacts.ContactText | operations/commands.py:36-39 | the text starts with the name and ends with the birthday's text, or "Not set" when there is none |
| Book.AddressBook.constructor | operations/commands.py:42 | a new book is empty and consistent |
| Book.AddressBook.View | operations/commands.py:42 | the book's view has exactly the stored names, each mapped to its record's current contact |
| Book.AddressBook.Contents | operations/commands.py:61 | the records' contacts in insertion order |
| Book.AddressBook.AddRecord | operations/commands.py:43-47 | a new name is stored last with its record and nothing is returned; a taken name returns "Name is already in the list!" and leaves the book unchanged |
| Book.IndexedAdd | operations/commands.py:43-45 | storing a record under a name not yet present keeps every name listed once and stored under its record's own name |
| Book.AddressBook.Find | operations/commands.py:49-50 | finds a record exactly when the name is stored, and the record found carries that name |
| Book.AddressBook.FindAfterTwoAdds | operations/commands.py:43-50 | after two different names are added to an empty book, each is found, under its own name, as distinct records |
| Book.AddressBook.Delete | operations/commands.py:52-56 | a stored name is removed from the order and the view; the other names keep their order; an absent name raises NotFound and changes nothing |
| Book.IndexedRemove | operations/commands.py:52-54 | removing a stored name keeps the book consistent and cuts exactly that name's position out of the order |
| Seqs.WithoutDistinct | operations/commands.py:54 | in a list without repeats, removing an element cuts out exactly its one position |
| Calendar.OrdinalRange | operations/commands.py:68 | every date's ordinal lies between 1 and the ordinal of 9999-12-31 |
| Calendar.OrdinalBefore | operations/commands.py:64 | an earlier date has a smaller ordinal |
| Calendar.OrdinalOrder | operations/commands.py:64 | comparing ordinals is the same as comparing dates by year, month and day, and equal ordinals mean equal dates |
| Calendar.ReplaceYear | operations/commands.py:63 | replacing the year succeeds exactly when the year is in range and the date is not 29 February of a non-leap year; it keeps the month and day |
| BirthdayRule.Anniversary | operations/commands.py:63-65 | the birthday's month and day in this year, or next year when that date has passed; never before today |
| BirthdayRule.AnniversaryIsEarliest | operations/commands.py:63-65 | no date with the birthday's month and day lies between today and the anniversary |
| BirthdayRule.AnniversaryFails | operations/commands.py:63-65 | exactly when the anniversary cannot be formed: a leap-day birthday in a non-leap year, or a passed birthday when next year is out of range or not a leap year for a leap-day birthday |
| Calendar.NextDay | operations/commands.py:67 | the following day is the date whose ordinal is one more |
| Calendar.FindNextWeekday | operations/commands.py:67 | a date found has the wanted weekday; the only failure is a date out of range |
| Calendar.FindNextWeekdayNearest | operations/commands.py:67 | the date found is the nearest one on or after the start with the wanted weekday; the search fails exactly when that date would fall after 9999-12-31 |
| Calendar.LastDateIsFriday | operations/commands.py:66-67 | 9999-12-31 has the largest ordinal and is a Friday, so moving a weekend never runs past the last date |
| BirthdayRule.ShiftWeekend | operations/commands.py:66-67 | Saturday moves two days, Sunday one day, a working day stays; the result is a working day |
| BirthdayRule.CongratulationDate | operations/commands.py:62-67 | the congratulation date exists exactly when the anniversary does, is the anniversary moved off the weekend, and is a working day no earlier than today |
| BirthdayRule.CongratulationOnWorkingDay | operations/commands.py:63-67 | the congratulation date is a working day, no earlier than the anniversary and at most two days after it |
| Book.Included | operations/commands.py:68 | a listed contact has a birthday whose congratulation date exists and is a working day |
| Book.Greeting | operations/commands.py:62-71 | one record's part of the query raises exactly when the record has a birthday whose anniversary cannot be formed, and the error is then a date out of range |
| Book.Collect | operations/commands.py:61-71 | when the query over the records raises, the error is the one some record raises |
| Book.Upcoming | operations/commands.py:58-72 | the only error the whole query raises is a date out of range |
| Book.CollectAppend | operations/commands.py:61-71 | running the per-record query over two lists of records joined gives the two results joined, and a failure in the first part wins |
| Book.CollectContains | operations/commands.py:61-71 | when the query succeeds, every record's own entries appear in the result |
| Book.UpcomingExtend | operations/commands.py:61-71 | one more record either ends the query with its error or appends its entries to the list so far |
| Book.UpcomingFails | operations/commands.py:62-65 | the listing fails exactly when some record has a birthday whose anniversary cannot be formed |
| Book.UpcomingSound | operations/commands.py:62-71 | every entry is a contact with a birthday whose congratulation date is 0 to `days` days from today, paired with that date's text |
| Book.UpcomingComplete | operations/commands.py:62-71 | every contact with a birthday whose congratulation date is 0 to `days` days from today is listed with that date's text |
| Book.GreetingShape | operations/commands.py:68-71 | a contact contributes at most one entry, with its own name |
| Book.GreetingSelects | operations/commands.py:62-71 | a contact contributes one entry with its name and congratulation date when that date is 0 to `days` days from today, and none otherwise |
| Book.UpcomingOnePerContact | operations/commands.py:61-71 | there are no more entries than records, and every entry names a record |
| Book.AddressBook.NamesOfContents | operations/commands.py:43-47 | the book's records, listed in order, carry the book's names, each once |
| Book.UpcomingDistinct | operations/commands.py:61-71 | when the records carry distinct names, as every book's records do (NamesOfContents), no name is listed twice |
| Book.SaturdayBirthdayAtWindowEdge | operations/commands.py:58-72 | on 2024-06-10, a birthday on Saturday 15 June is greeted on Monday 17 June, seven days ahead and still listed |
| Book.PassedBirthdayNotListed | operations/commands.py:58-72 | on 2024-06-10, a birthday on 9 June moves to the next year and is not listed |
| Book.AddressBook.UpcomingBirthdays | operations/commands.py:58-72 | the loop over the records yields exactly the specified entries or error |
| Book.BookText | operations/commands.py:74-75 | an empty book is the empty text; one record is its own line |
| Book.BookTextSnoc | operations/commands.py:74-75 | each further record adds one line, separated by a newline |
| Commands.AddContact | operations/commands.py:79-90 | with fewer than two words it shows the usage and changes nothing. For a stored name it appends the phone and says "Contact updated.", or raises InvalidPhone and changes nothing. For a new name it adds the contact last with that one phone and says "Contact added.", or raises InvalidPhone after adding the contact with no phones. Stored names keep their own record objects, and a new contact's record is a new object |
| Commands.AddBirthday | operations/commands.py:94-102 | usage, or "Contact not found." with nothing changed, or the named contact's birthday set and "Birthday added.", or InvalidBirthday with nothing changed |
| Commands.ShowBirthday | operations/commands.py:106-113 | usage, or "Contact not found.", or the birthday's text, or "Birthday not set." |
| Commands.GreetingLines | operations/commands.py:120 | one "name - date" line per entry, in order |
| Commands.Birthdays | operations/commands.py:117-122 | the upcoming entries joined by newlines, or the no-one message when there are none, or the listing's error raised |
| Commands.ChangeContact | operations/commands.py:126-135 | usage, or the not-found message, or all of the contact's phones replaced by the one new phone, or InvalidPhone with nothing changed |
| Commands.DeleteContact | operations/commands.py:139-144 | usage, or the contact removed with "Contact <name> deleted." and the other names kept in order, or NotFound raised with nothing changed; the remaining names keep their own record objects |
| Commands.ShowPhone | operations/commands.py:148-156 | usage, or the not-found message, or "<name>'s phone number(s): " followed by the phones joined by ", " |

## Left out

- The error decorators `input_error`, `change_error` and `show_phone_error`
  (operations/functions.py is not part of this model). A handler either
  answers (`Said`) or raises (`Raised` with the error kind); the model does
  not include the message text each decorator makes from an error.
- `find_next_weekday` and `date_to_string` live in operations/functions.py,
  which is not part of this model. The first is modelled as a
  day-by-day search for the first date on or after its argument with the
  wanted weekday; its code is not part of this model. The second is the `dateText`
  parameter.
- The field classes `Name`, `Phone` and `Birthday` (models/fields.py is not
  part of this model). Phone validation and birthday parsing are the
  `Fields` parameters. A name is kept as the text given, and name validation
  is not modelled.
- `str()` of a phone is its value; `str()` of a birthday is `dateText` of
  its date.
- `date.today()` is the `today` parameter of `UpcomingBirthdays` and
  `Birthdays`.
- The `UserDict` machinery. The dictionary is modelled by `names`, which
  keeps insertion order, and `records`. Only the operations defined in
  commands.py are modelled.
- Python truthiness. `if record:` and `if not phone:` are modelled as
  "is present", so objects are assumed always truthy.
- The command loop that reads user input and dispatches to handlers is not
  part of this model.
- Contacts.ContactText: states the prefix with the name and the suffix with
  the birthday, not the joined phones in between. `Commands.ShowPhone`
  states the phone list itself.
- Contacts.Record.FindPhone: phones are values, so the model returns an
  equal phone. It does not capture the identity of the returned object.
