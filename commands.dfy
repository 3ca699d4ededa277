/** The command handlers of operations/commands.py: each checks its
    arguments, then queries or changes the book and answers with a text, or
    raises. */
module Commands {
  import opened Outcomes
  import opened Calendar
  import opened Seqs
  import opened Contacts
  import opened Book

  /** A handler's answer, or the error it raised for the caller to report. */
  datatype Reply = Said(text: string) | Raised(error: Error)

  const AddUsage := "Not enough arguments. Usage: add <name> <phone>"
  const AddBirthdayUsage := "Not enough arguments. Usage: add-birthday <name> <birthday>"
  const ShowBirthdayUsage := "Not enough arguments. Usage: show-birthday <name>"
  const ChangeUsage := "Not enough arguments. Usage: change <name> <new_phone>"
  const DeleteUsage := "Not enough arguments. Usage: delete <name>"
  const PhoneUsage := "Not enough arguments. Usage: phone <name>"
  const ContactAdded := "Contact added."
  const ContactUpdated := "Contact updated."
  const BirthdayAdded := "Birthday added."
  const BirthdayNotSet := "Birthday not set."
  const ContactNotFound := "Contact not found."
  const PhoneUpdated := "Contact phone updated."
  const NameNotFound := "This name was not found in contacts."
  const NoOneToCongratulate := "There is no one to congratulate within the next week."

  /** The lookahead `birthdays` uses: the default of `get_upcoming_birthdays`. */
  const DefaultDays := 7

  /** `add <name> <phone>`: appends the phone to the named contact, creating
      the contact first when there is none. The new contact is stored before
      the phone is checked, so it stays, without phones, when the phone is
      invalid. */
  method AddContact(args: seq<string>, book: AddressBook, fields: Fields) returns (reply: Reply)
    requires book.Valid()
    modifies book, book.records.Values
    ensures book.Valid()
    ensures forall n :: n in old(book.records) ==> n in book.records && book.records[n] == old(book.records)[n]
    ensures |args| >= 2 && args[0] !in old(book.records) ==> args[0] in book.records && fresh(book.records[args[0]])
    ensures |args| < 2 ==>
      reply == Said(AddUsage) && book.names == old(book.names) && book.View() == old(book.View())
    ensures |args| >= 2 && args[0] in old(book.records) ==>
      var c := old(book.View())[args[0]];
      && book.names == old(book.names)
      && (fields.validPhone(args[1]) ==>
            reply == Said(ContactUpdated)
            && book.View() == old(book.View())[args[0] := c.(phones := c.phones + [Phone(args[1])])])
      && (!fields.validPhone(args[1]) ==> reply == Raised(InvalidPhone) && book.View() == old(book.View()))
    ensures |args| >= 2 && args[0] !in old(book.records) ==>
      && book.names == old(book.names) + [args[0]]
      && (fields.validPhone(args[1]) ==>
            reply == Said(ContactAdded)
            && book.View() == old(book.View())[args[0] := Contact(args[0], [Phone(args[1])], None)])
      && (!fields.validPhone(args[1]) ==>
            reply == Raised(InvalidPhone)
            && book.View() == old(book.View())[args[0] := Contact(args[0], [], None)])
  {
    if |args| < 2 {
      return Said(AddUsage);
    }
    var name, phone := args[0], args[1];
    var found := book.Find(name);
    var message := ContactUpdated;
    var record: Record;
    if found.None? {
      record := new Record(name);
      var duplicate := book.AddRecord(record);
      message := ContactAdded;
    } else {
      record := found.value;
    }
    var res := record.AddPhone(phone, fields);
    if found.None? && res.Done? {
      assert record.Value() == Contact(name, [Phone(phone)], None);
    }
    book.ViewUpdated(name, record);
    if res.Failed? {
      return Raised(res.error);
    }
    return Said(message);
  }

  /** `add-birthday <name> <birthday>`: sets the named contact's birthday. */
  method AddBirthday(args: seq<string>, book: AddressBook, fields: Fields) returns (reply: Reply)
    requires book.Valid()
    modifies book.records.Values
    ensures book.Valid() && book.names == old(book.names)
    ensures |args| < 2 ==> reply == Said(AddBirthdayUsage) && book.View() == old(book.View())
    ensures |args| >= 2 && args[0] !in old(book.records) ==>
      reply == Said(ContactNotFound) && book.View() == old(book.View())
    ensures |args| >= 2 && args[0] in old(book.records) ==>
      var c := old(book.View())[args[0]];
      && (fields.parseBirthday(args[1]).Some? ==>
            reply == Said(BirthdayAdded)
            && book.View() == old(book.View())[args[0] := c.(birthday := fields.parseBirthday(args[1]))])
      && (fields.parseBirthday(args[1]).None? ==>
            reply == Raised(InvalidBirthday) && book.View() == old(book.View()))
  {
    if |args| < 2 {
      return Said(AddBirthdayUsage);
    }
    var name, birthday := args[0], args[1];
    var found := book.Find(name);
    if found.None? {
      return Said(ContactNotFound);
    }
    var record := found.value;
    var res := record.AddBirthday(birthday, fields);
    book.ViewUpdated(name, record);
    if res.Failed? {
      return Raised(res.error);
    }
    return Said(BirthdayAdded);
  }

  /** `show-birthday <name>`: the named contact's birthday as text. */
  function ShowBirthday(args: seq<string>, book: AddressBook, dateText: Date -> string): (text: string)
    reads book, book.records.Values
    requires book.Valid()
    ensures |args| < 1 ==> text == ShowBirthdayUsage
    ensures |args| >= 1 && args[0] !in book.View() ==> text == ContactNotFound
    ensures |args| >= 1 && args[0] in book.View() && book.View()[args[0]].birthday.None? ==>
      text == BirthdayNotSet
    ensures |args| >= 1 && args[0] in book.View() && book.View()[args[0]].birthday.Some? ==>
      text == dateText(book.View()[args[0]].birthday.value)
  {
    if |args| < 1 then ShowBirthdayUsage
    else match book.Find(args[0])
      case None => ContactNotFound
      case Some(record) =>
        if record.birthday.Some? then dateText(record.birthday.value) else BirthdayNotSet
  }

  function GreetingLines(es: seq<Entry>): (lines: seq<string>)
    ensures |lines| == |es|
    ensures forall i :: 0 <= i < |es| ==> lines[i] == es[i].name + " - " + es[i].congratulationDate
  {
    seq(|es|, i requires 0 <= i < |es| => es[i].name + " - " + es[i].congratulationDate)
  }

  /** `birthdays`: the contacts to congratulate within the default week,
      one "name - date" line each. */
  method Birthdays(book: AddressBook, today: Date, dateText: Date -> string) returns (reply: Reply)
    requires book.Valid()
    ensures Upcoming(book.Contents(), today, DefaultDays, dateText).Err? ==>
      reply == Raised(Upcoming(book.Contents(), today, DefaultDays, dateText).error)
    ensures Upcoming(book.Contents(), today, DefaultDays, dateText) == Ok([]) ==>
      reply == Said(NoOneToCongratulate)
    ensures var r := Upcoming(book.Contents(), today, DefaultDays, dateText);
      r.Ok? && r.value != [] ==> reply == Said(Join(GreetingLines(r.value), "\n"))
  {
    var upcoming := book.UpcomingBirthdays(today, DefaultDays, dateText);
    if upcoming.Err? {
      return Raised(upcoming.error);
    }
    if upcoming.value != [] {
      return Said(Join(GreetingLines(upcoming.value), "\n"));
    }
    return Said(NoOneToCongratulate);
  }

  /** `change <name> <new_phone>`: replaces the named contact's phones by
      exactly the one new phone. */
  method ChangeContact(args: seq<string>, book: AddressBook, fields: Fields) returns (reply: Reply)
    requires book.Valid()
    modifies book.records.Values
    ensures book.Valid() && book.names == old(book.names)
    ensures |args| < 2 ==> reply == Said(ChangeUsage) && book.View() == old(book.View())
    ensures |args| >= 2 && args[0] !in old(book.records) ==>
      reply == Said(NameNotFound) && book.View() == old(book.View())
    ensures |args| >= 2 && args[0] in old(book.records) ==>
      var c := old(book.View())[args[0]];
      && (fields.validPhone(args[1]) ==>
            reply == Said(PhoneUpdated)
            && book.View() == old(book.View())[args[0] := c.(phones := [Phone(args[1])])])
      && (!fields.validPhone(args[1]) ==> reply == Raised(InvalidPhone) && book.View() == old(book.View()))
  {
    if |args| < 2 {
      return Said(ChangeUsage);
    }
    var name, phone := args[0], args[1];
    var found := book.Find(name);
    if found.None? {
      return Said(NameNotFound);
    }
    var record := found.value;
    match NewPhone(phone, fields)
    case Err(e) =>
      return Raised(e);
    case Ok(p) =>
      record.phones := [p];
      book.ViewUpdated(name, record);
      return Said(PhoneUpdated);
  }

  /** `delete <name>`: removes the named contact; an absent name raises. */
  method DeleteContact(args: seq<string>, book: AddressBook) returns (reply: Reply)
    requires book.Valid()
    modifies book
    ensures book.Valid()
    ensures forall n :: n in book.records ==> n in old(book.records) && book.records[n] == old(book.records)[n]
    ensures |args| < 1 ==>
      reply == Said(DeleteUsage) && book.names == old(book.names) && book.View() == old(book.View())
    ensures |args| >= 1 && args[0] in old(book.records) ==>
      && reply == Said("Contact " + args[0] + " deleted.")
      && book.names == Without(old(book.names), args[0])
      && book.View() == old(book.View()) - {args[0]}
    ensures |args| >= 1 && args[0] !in old(book.records) ==>
      reply == Raised(NotFound) && book.names == old(book.names) && book.View() == old(book.View())
  {
    if |args| < 1 {
      return Said(DeleteUsage);
    }
    var name := args[0];
    var res := book.Delete(name);
    if res.Failed? {
      return Raised(res.error);
    }
    book.ViewRemoved(name);
    return Said("Contact " + name + " deleted.");
  }

  /** `phone <name>`: the named contact's phones, joined by ", ". */
  function ShowPhone(args: seq<string>, book: AddressBook): (text: string)
    reads book, book.records.Values
    requires book.Valid()
    ensures |args| < 1 ==> text == PhoneUsage
    ensures |args| >= 1 && args[0] !in book.View() ==> text == NameNotFound
    ensures |args| >= 1 && args[0] in book.View() ==>
      text == args[0] + "'s phone number(s): " + Join(PhoneTexts(book.View()[args[0]].phones), ", ")
  {
    if |args| < 1 then PhoneUsage
    else match book.Find(args[0])
      case None => NameNotFound
      case Some(record) => args[0] + "'s phone number(s): " + Join(PhoneTexts(record.phones), ", ")
  }
}
