/** `AddressBook` of operations/commands.py: an insertion-ordered map from a
    contact's name to its record, and the upcoming-birthdays query. */
module Book {
  import opened Outcomes
  import opened Calendar
  import opened BirthdayRule
  import opened Seqs
  import opened Contacts

  const DuplicateName := "Name is already in the list!"

  /** One element of the upcoming-birthdays list: a name and the date it is
      congratulated on, as text. */
  datatype Entry = Entry(name: string, congratulationDate: string)

  /** The contacts of `view` in the order of `names`. */
  function InOrder(names: seq<string>, view: map<string, Contact>): (cs: seq<Contact>)
    requires forall n :: n in names ==> n in view
    ensures |cs| == |names|
    ensures forall i :: 0 <= i < |names| ==> cs[i] == view[names[i]]
  {
    seq(|names|, i requires 0 <= i < |names| => view[names[i]])
  }

  function Names(cs: seq<Contact>): (ns: seq<string>)
    ensures |ns| == |cs| && forall i :: 0 <= i < |cs| ==> ns[i] == cs[i].name
  {
    seq(|cs|, i requires 0 <= i < |cs| => cs[i].name)
  }

  function EntryNames(es: seq<Entry>): (ns: seq<string>)
    ensures |ns| == |es| && forall i :: 0 <= i < |es| ==> ns[i] == es[i].name
  {
    seq(|es|, i requires 0 <= i < |es| => es[i].name)
  }

  /** The contact has a birthday whose congratulation date exists. */
  predicate Dated(c: Contact, today: Date) {
    c.birthday.Some? && CongratulationDate(c.birthday.value, today).Ok?
  }

  function DateOf(c: Contact, today: Date): Date
    requires Dated(c, today)
  {
    CongratulationDate(c.birthday.value, today).value
  }

  /** The contact is listed: its congratulation date, after the weekend
      shift, is between today and `days` days later, both included. */
  predicate Included(c: Contact, today: Date, days: int): (b: bool)
    ensures b ==> Dated(c, today) && Weekday(DateOf(c, today)) < 5
  {
    Dated(c, today) && 0 <= ToOrdinal(DateOf(c, today)) - ToOrdinal(today) <= days
  }

  /** Running one query after another: the first error wins, else the lists
      are concatenated. */
  function Then(first: Result<seq<Entry>>, second: Result<seq<Entry>>): Result<seq<Entry>> {
    if first.Err? then first
    else if second.Err? then second
    else Ok(first.value + second.value)
  }

  /** What one contact adds to the list, or the error its anniversary raises. */
  function Greeting(c: Contact, today: Date, days: int, dateText: Date -> string): (r: Result<seq<Entry>>)
    ensures r.Err? <==> c.birthday.Some? && Anniversary(c.birthday.value, today).Err?
    ensures r.Err? ==> r.error == DateOutOfRange
  {
    if c.birthday.None? then Ok([])
    else match CongratulationDate(c.birthday.value, today)
      case Err(e) => Err(e)
      case Ok(d) =>
        if 0 <= ToOrdinal(d) - ToOrdinal(today) <= days then Ok([Entry(c.name, dateText(d))]) else Ok([])
  }

  /** Running a per-contact query over the contacts in book order: the first
      error raised ends the whole query. */
  function Collect(cs: seq<Contact>, greet: Contact -> Result<seq<Entry>>): (r: Result<seq<Entry>>)
    ensures r.Err? ==> exists i :: 0 <= i < |cs| && greet(cs[i]) == r
    decreases |cs|
  {
    if cs == [] then Ok([])
    else
      var front := cs[..|cs| - 1];
      assert forall i :: 0 <= i < |front| ==> front[i] == cs[i];
      Then(Collect(front, greet), greet(cs[|cs| - 1]))
  }

  function Greeter(today: Date, days: int, dateText: Date -> string): Contact -> Result<seq<Entry>> {
    c => Greeting(c, today, days, dateText)
  }

  /** `get_upcoming_birthdays` over the contacts in book order. */
  function Upcoming(cs: seq<Contact>, today: Date, days: int, dateText: Date -> string): (r: Result<seq<Entry>>)
    ensures r.Err? ==> r.error == DateOutOfRange
  {
    Collect(cs, Greeter(today, days, dateText))
  }

  /** The query works contact by contact, in book order. */
  lemma {:induction false} CollectAppend(a: seq<Contact>, b: seq<Contact>, greet: Contact -> Result<seq<Entry>>)
    ensures Collect(a + b, greet) == Then(Collect(a, greet), Collect(b, greet))
    decreases |b|
  {
    if b == [] {
      assert a + b == a;
      var x := Collect(a, greet);
      if x.Ok? {
        assert x.value + [] == x.value;
      }
    } else {
      var b' := b[..|b| - 1];
      assert (a + b)[..|a + b| - 1] == a + b';
      assert (a + b)[|a + b| - 1] == b[|b| - 1];
      CollectAppend(a, b', greet);
      var x, y, z := Collect(a, greet), Collect(b', greet), greet(b[|b| - 1]);
      if x.Ok? && y.Ok? && z.Ok? {
        assert x.value + y.value + z.value == x.value + (y.value + z.value);
      }
    }
  }

  lemma CollectStep(cs: seq<Contact>, i: nat, greet: Contact -> Result<seq<Entry>>)
    requires i < |cs|
    ensures Collect(cs[..i + 1], greet) == Then(Collect(cs[..i], greet), greet(cs[i]))
  {
    assert cs[..i + 1][..i] == cs[..i];
    assert cs[..i + 1][i] == cs[i];
  }

  /** Once a prefix of the contacts raises, so does the whole query. */
  lemma CollectPrefixFails(cs: seq<Contact>, k: nat, greet: Contact -> Result<seq<Entry>>)
    requires k <= |cs| && Collect(cs[..k], greet).Err?
    ensures Collect(cs, greet) == Collect(cs[..k], greet)
  {
    assert cs == cs[..k] + cs[k..];
    CollectAppend(cs[..k], cs[k..], greet);
  }

  /** What each contact adds is part of the whole list. */
  lemma {:induction false} CollectContains(cs: seq<Contact>, i: int, greet: Contact -> Result<seq<Entry>>)
    requires Collect(cs, greet).Ok? && 0 <= i < |cs|
    ensures greet(cs[i]).Ok?
    ensures forall e :: e in greet(cs[i]).value ==> e in Collect(cs, greet).value
    decreases |cs|
  {
    var n := |cs| - 1;
    var front := cs[..n];
    assert Collect(cs, greet).value == Collect(front, greet).value + greet(cs[n]).value;
    if i < n {
      assert front[i] == cs[i];
      CollectContains(front, i, greet);
    }
  }

  /** The query raises exactly when some contact's anniversary cannot be taken. */
  lemma {:induction false} UpcomingFails(cs: seq<Contact>, today: Date, days: int, dateText: Date -> string)
    ensures Upcoming(cs, today, days, dateText).Err? <==>
      exists i :: 0 <= i < |cs| && cs[i].birthday.Some? && Anniversary(cs[i].birthday.value, today).Err?
    decreases |cs|
  {
    if cs != [] {
      var front := cs[..|cs| - 1];
      UpcomingFails(front, today, days, dateText);
      assert forall i :: 0 <= i < |front| ==> front[i] == cs[i];
    }
  }

  /** Every listed entry is an included contact, with its shifted date. */
  lemma {:induction false} UpcomingSound(cs: seq<Contact>, today: Date, days: int, dateText: Date -> string)
    requires Upcoming(cs, today, days, dateText).Ok?
    ensures forall e :: e in Upcoming(cs, today, days, dateText).value ==>
      exists i :: 0 <= i < |cs| && Included(cs[i], today, days) && e == Entry(cs[i].name, dateText(DateOf(cs[i], today)))
    decreases |cs|
  {
    if cs != [] {
      var n := |cs| - 1;
      var front := cs[..n];
      UpcomingSound(front, today, days, dateText);
      GreetingSelects(cs[n], today, days, dateText);
      var before := Upcoming(front, today, days, dateText).value;
      assert Upcoming(cs, today, days, dateText).value == before + Greeting(cs[n], today, days, dateText).value;
      forall e | e in Upcoming(cs, today, days, dateText).value
        ensures exists i :: 0 <= i < |cs| && Included(cs[i], today, days) && e == Entry(cs[i].name, dateText(DateOf(cs[i], today)))
      {
        if e in before {
          var i :| 0 <= i < |front| && Included(front[i], today, days) && e == Entry(front[i].name, dateText(DateOf(front[i], today)));
          assert front[i] == cs[i];
        } else {
          assert Included(cs[n], today, days);
        }
      }
    }
  }

  /** Every included contact is listed, with its shifted date. */
  lemma UpcomingComplete(cs: seq<Contact>, i: int, today: Date, days: int, dateText: Date -> string)
    requires Upcoming(cs, today, days, dateText).Ok?
    requires 0 <= i < |cs| && Included(cs[i], today, days)
    ensures Entry(cs[i].name, dateText(DateOf(cs[i], today))) in Upcoming(cs, today, days, dateText).value
  {
    CollectContains(cs, i, Greeter(today, days, dateText));
    GreetingSelects(cs[i], today, days, dateText);
  }

  /** A contact adds at most one entry, under its own name. */
  lemma GreetingShape(c: Contact, today: Date, days: int, dateText: Date -> string)
    requires Greeting(c, today, days, dateText).Ok?
    ensures var g := Greeting(c, today, days, dateText).value;
      |g| <= 1 && forall e :: e in g ==> e.name == c.name
  {
  }

  /** A contact adds its entry exactly when it is included. */
  lemma GreetingSelects(c: Contact, today: Date, days: int, dateText: Date -> string)
    requires Greeting(c, today, days, dateText).Ok?
    ensures Greeting(c, today, days, dateText).value ==
      if Included(c, today, days) then [Entry(c.name, dateText(DateOf(c, today)))] else []
  {
  }

  /** A per-contact result lists at most one entry, under the given name. */
  predicate NamedOnce(g: Result<seq<Entry>>, name: string) {
    g.Ok? ==> |g.value| <= 1 && forall e :: e in g.value ==> e.name == name
  }

  lemma {:induction false} CollectOnePerContact(cs: seq<Contact>, greet: Contact -> Result<seq<Entry>>)
    requires Collect(cs, greet).Ok?
    requires forall c :: NamedOnce(greet(c), c.name)
    ensures var es := Collect(cs, greet).value;
      |es| <= |cs| && forall e :: e in es ==> e.name in Names(cs)
    decreases |cs|
  {
    if cs != [] {
      var front, last := cs[..|cs| - 1], cs[|cs| - 1];
      CollectOnePerContact(front, greet);
      assert NamedOnce(greet(last), last.name);
      var before, added := Collect(front, greet).value, greet(last).value;
      assert Collect(cs, greet).value == before + added;
      assert Names(cs) == Names(front) + [last.name];
      forall e: Entry | e in before + added ensures e.name in Names(cs) {
        if e in before {
          assert e.name in Names(front);
        }
      }
    }
  }

  /** Entries name contacts of the book, one entry per contact at most. */
  lemma UpcomingOnePerContact(cs: seq<Contact>, today: Date, days: int, dateText: Date -> string)
    requires Upcoming(cs, today, days, dateText).Ok?
    ensures var es := Upcoming(cs, today, days, dateText).value;
      |es| <= |cs| && forall e :: e in es ==> e.name in Names(cs)
  {
    var greet := Greeter(today, days, dateText);
    forall c ensures NamedOnce(greet(c), c.name) {
      if greet(c).Ok? {
        GreetingShape(c, today, days, dateText);
      }
    }
    CollectOnePerContact(cs, greet);
  }

  lemma DistinctPrefix(ns: seq<string>)
    requires ns != [] && Distinct(ns)
    ensures Distinct(ns[..|ns| - 1]) && ns[|ns| - 1] !in ns[..|ns| - 1]
  {
    var front := ns[..|ns| - 1];
    forall i | 0 <= i < |front| ensures front[i] != ns[|ns| - 1] {
      assert front[i] == ns[i];
    }
  }

  lemma DistinctSnoc(es: seq<Entry>, g: seq<Entry>, n: string)
    requires Distinct(EntryNames(es)) && n !in EntryNames(es)
    requires |g| <= 1 && forall e :: e in g ==> e.name == n
    ensures Distinct(EntryNames(es + g))
  {
    if g != [] {
      assert EntryNames(es + g) == EntryNames(es) + [n];
    } else {
      assert es + g == es;
    }
  }

  /** The entries follow the book, where names are distinct, so no name is
      listed twice. */
  lemma {:induction false} UpcomingDistinct(cs: seq<Contact>, today: Date, days: int, dateText: Date -> string)
    requires Upcoming(cs, today, days, dateText).Ok?
    requires Distinct(Names(cs))
    ensures Distinct(EntryNames(Upcoming(cs, today, days, dateText).value))
    decreases |cs|
  {
    if cs != [] {
      var front, last := cs[..|cs| - 1], cs[|cs| - 1];
      assert Names(front) == Names(cs)[..|cs| - 1];
      DistinctPrefix(Names(cs));
      UpcomingDistinct(front, today, days, dateText);
      UpcomingOnePerContact(front, today, days, dateText);
      GreetingShape(last, today, days, dateText);
      var es := Upcoming(front, today, days, dateText).value;
      assert last.name !in EntryNames(es) by {
        forall i | 0 <= i < |es| ensures EntryNames(es)[i] != last.name {
          assert es[i] in es;
        }
      }
      DistinctSnoc(es, Greeting(last, today, days, dateText).value, last.name);
    }
  }

  /** A Saturday birthday seen from the Monday before is congratulated on the
      next Monday, seven days out, and is listed at the window's edge. */
  lemma SaturdayBirthdayAtWindowEdge(dateText: Date -> string)
    ensures var today: Date := Ymd(2024, 6, 10);
      var alice := Contact("Alice", [], Some(Ymd(1990, 6, 15)));
      && Weekday(today) == 0
      && Weekday(Ymd(2024, 6, 15)) == 5
      && CongratulationDate(Ymd(1990, 6, 15), today) == Ok(Ymd(2024, 6, 17))
      && Upcoming([alice], today, 7, dateText) == Ok([Entry("Alice", dateText(Ymd(2024, 6, 17)))])
  {
    var today: Date := Ymd(2024, 6, 10);
    var saturday: Date := Ymd(2024, 6, 15);
    assert ToOrdinal(today) == 739047;
    assert Anniversary(Ymd(1990, 6, 15), today) == Ok(saturday);
    assert ToOrdinal(ShiftWeekend(saturday)) == 739054;
    OrdinalOrder(ShiftWeekend(saturday), Ymd(2024, 6, 17));
    var alice := Contact("Alice", [], Some(Ymd(1990, 6, 15)));
    assert [alice][..0] == [];
    assert CongratulationDate(Ymd(1990, 6, 15), today) == Ok(Ymd(2024, 6, 17));
    assert Greeting(alice, today, 7, dateText) == Ok([Entry("Alice", dateText(Ymd(2024, 6, 17)))]);
    assert [] + [Entry("Alice", dateText(Ymd(2024, 6, 17)))] == [Entry("Alice", dateText(Ymd(2024, 6, 17)))];
  }

  /** A birthday one day past moves to next year and leaves the week. */
  lemma PassedBirthdayNotListed(dateText: Date -> string)
    ensures var today: Date := Ymd(2024, 6, 10);
      var bob := Contact("Bob", [], Some(Ymd(1990, 6, 9)));
      && Anniversary(Ymd(1990, 6, 9), today) == Ok(Ymd(2025, 6, 9))
      && Upcoming([bob], today, 7, dateText) == Ok([])
  {
    var today: Date := Ymd(2024, 6, 10);
    assert Anniversary(Ymd(1990, 6, 9), today) == Ok(Ymd(2025, 6, 9));
    assert ToOrdinal(Ymd(2025, 6, 9)) - ToOrdinal(today) == 364;
    var bob := Contact("Bob", [], Some(Ymd(1990, 6, 9)));
    assert [bob][..0] == [];
    assert CongratulationDate(Ymd(1990, 6, 9), today) == Ok(Ymd(2025, 6, 9));
    assert Greeting(bob, today, 7, dateText) == Ok([]);
    var none: seq<Entry> := [];
    assert none + none == none;
  }

  /** `str(book)`: the records' texts, one per line, in book order. */
  function BookText(cs: seq<Contact>, dateText: Date -> string): (s: string)
    ensures cs == [] ==> s == ""
    ensures |cs| == 1 ==> s == ContactText(cs[0], dateText)
  {
    Join(seq(|cs|, i requires 0 <= i < |cs| => ContactText(cs[i], dateText)), "\n")
  }

  /** Each further record adds one line at the end. */
  lemma BookTextSnoc(cs: seq<Contact>, c: Contact, dateText: Date -> string)
    requires cs != []
    ensures BookText(cs + [c], dateText) == BookText(cs, dateText) + "\n" + ContactText(c, dateText)
  {
    var texts := seq(|cs|, i requires 0 <= i < |cs| => ContactText(cs[i], dateText));
    var more := seq(|cs + [c]|, i requires 0 <= i < |cs + [c]| => ContactText((cs + [c])[i], dateText));
    assert more == texts + [ContactText(c, dateText)];
    JoinSnoc(texts, ContactText(c, dateText), "\n");
  }

  /** One more contact: its greeting either ends the query with its error or
      extends the list. */
  lemma UpcomingExtend(cs: seq<Contact>, i: nat, upcoming: seq<Entry>, today: Date, days: int, dateText: Date -> string)
    requires i < |cs| && Upcoming(cs[..i], today, days, dateText) == Ok(upcoming)
    ensures var added := Greeting(cs[i], today, days, dateText);
      && (added.Err? ==> Upcoming(cs, today, days, dateText) == added)
      && (added.Ok? ==> Upcoming(cs[..i + 1], today, days, dateText) == Ok(upcoming + added.value))
  {
    var greet := Greeter(today, days, dateText);
    CollectStep(cs, i, greet);
    assert greet(cs[i]) == Greeting(cs[i], today, days, dateText);
    if greet(cs[i]).Err? {
      CollectPrefixFails(cs, i + 1, greet);
    }
  }

  /** The insertion order lists each stored name once, and each name is
      stored under its record's own name. */
  ghost predicate Indexed(names: seq<string>, records: map<string, Record>) {
    && (forall n :: n in records <==> n in names)
    && Distinct(names)
    && (forall n :: n in records ==> records[n].name == n)
  }

  /** Storing a record under a new name keeps the book consistent. */
  lemma IndexedAdd(names: seq<string>, records: map<string, Record>, record: Record)
    requires Indexed(names, records) && record.name !in records
    ensures Indexed(names + [record.name], records[record.name := record])
  {
    forall i, j | 0 <= i < j < |names| + 1
      ensures (names + [record.name])[i] != (names + [record.name])[j]
    {
      if j == |names| {
        assert names[i] in names;
      }
    }
  }

  /** Removing a stored name keeps the book consistent and cuts exactly one
      position out of the order. */
  lemma IndexedRemove(names: seq<string>, records: map<string, Record>, name: string)
    requires Indexed(names, records) && name in records
    ensures Indexed(Without(names, name), records - {name})
    ensures exists i :: 0 <= i < |names| && names[i] == name && Without(names, name) == names[..i] + names[i + 1..]
  {
    var i :| 0 <= i < |names| && names[i] == name;
    WithoutDistinct(names, i);
    WithoutKeepsDistinct(names, name);
    var rest, left := Without(names, name), records - {name};
    forall n ensures n in left <==> n in rest {
      WithoutMember(names, name, n);
    }
  }

  class AddressBook {
    var names: seq<string>
    var records: map<string, Record>

    /** Keys and insertion order agree, and each key is its record's name. */
    ghost predicate Valid()
      reads this
    {
      Indexed(names, records)
    }

    constructor ()
      ensures Valid() && names == [] && records == map[]
    {
      names := [];
      records := map[];
    }

    /** The records' states, by name. */
    function View(): (v: map<string, Contact>)
      reads this, records.Values
      ensures v.Keys == records.Keys
      ensures forall n :: n in records ==> v[n] == records[n].Value()
    {
      map n | n in records :: records[n].Value()
    }

    /** The records' states in book order. */
    function Contents(): (cs: seq<Contact>)
      reads this, records.Values
      requires Valid()
      ensures |cs| == |names|
      ensures forall i :: 0 <= i < |names| ==> cs[i] == records[names[i]].Value()
    {
      InOrder(names, View())
    }

    /** Changing one record under `name`, or storing it there, changes the
        view at that name only. */
    twostate lemma ViewUpdated(name: string, new record: Record)
      requires old(Valid()) && record.name == name && records == old(records)[name := record]
      requires forall r :: r in old(records).Values && r != record ==> unchanged(r)
      ensures View() == old(View())[name := record.Value()]
    {
      forall n | n in records && n != name
        ensures records[n] != record && unchanged(records[n])
      {
        assert old(records)[n] in old(records).Values;
      }
    }

    /** Removing a name from the map removes it from the view; the other
        records are untouched. */
    twostate lemma ViewRemoved(name: string)
      requires records == old(records) - {name}
      requires forall r :: r in old(records).Values ==> unchanged(r)
      ensures View() == old(View()) - {name}
    {
      forall n | n in records
        ensures unchanged(records[n])
      {
        assert old(records)[n] in old(records).Values;
      }
    }

    /** Listing the book's records gives its names in order, each once. */
    lemma NamesOfContents()
      requires Valid()
      ensures Names(Contents()) == names && Distinct(Names(Contents()))
    {
    }

    /** `find`: the stored record, or None. */
    function Find(name: string): (r: Option<Record>)
      reads this
      requires Valid()
      ensures r.Some? <==> name in names
      ensures r.Some? ==> r.value == records[name] && r.value.name == name
    {
      if name in records then Some(records[name]) else None
    }

    /** `add_record`: inserts under the record's name at the end of the
        order; a name already present is answered with a message and changes
        nothing. */
    method AddRecord(record: Record) returns (msg: Option<string>)
      requires Valid()
      modifies this
      ensures Valid()
      ensures record.name !in old(records) ==>
        msg == None && names == old(names) + [record.name] && records == old(records)[record.name := record]
      ensures record.name in old(records) ==>
        msg == Some(DuplicateName) && names == old(names) && records == old(records)
    {
      if record.name !in records {
        IndexedAdd(names, records, record);
        records := records[record.name := record];
        names := names + [record.name];
        msg := None;
      } else {
        msg := Some(DuplicateName);
      }
    }

    /** `delete`: removes the name and its record, keeping the others in
        order; an absent name raises and changes nothing. */
    method Delete(name: string) returns (res: Outcome)
      requires Valid()
      modifies this
      ensures Valid()
      ensures name in old(records) ==>
        res == Done && records == old(records) - {name} && names == Without(old(names), name)
        && exists i :: 0 <= i < |old(names)| && old(names)[i] == name && names == old(names)[..i] + old(names)[i + 1..]
      ensures name !in old(records) ==> res == Failed(NotFound) && unchanged(this)
    {
      if name in records {
        IndexedRemove(names, records, name);
        records := records - {name};
        names := Without(names, name);
        res := Done;
      } else {
        res := Failed(NotFound);
      }
    }

    /** Two records with different names are each found again. */
    static method FindAfterTwoAdds(n1: string, n2: string) returns (r1: Option<Record>, r2: Option<Record>)
      requires n1 != n2
      ensures r1.Some? && r1.value.name == n1
      ensures r2.Some? && r2.value.name == n2
      ensures r1.value != r2.value
    {
      var book := new AddressBook();
      var first := new Record(n1);
      var m1 := book.AddRecord(first);
      var second := new Record(n2);
      var m2 := book.AddRecord(second);
      r1 := book.Find(n1);
      r2 := book.Find(n2);
    }

    /** `get_upcoming_birthdays`, with today's date given. */
    method UpcomingBirthdays(today: Date, days: int, dateText: Date -> string) returns (r: Result<seq<Entry>>)
      requires Valid()
      ensures r == Upcoming(Contents(), today, days, dateText)
    {
      ghost var cs := Contents();
      var upcoming: seq<Entry> := [];
      for i := 0 to |names|
        invariant Upcoming(cs[..i], today, days, dateText) == Ok(upcoming)
        invariant Contents() == cs
      {
        var record := records[names[i]];
        assert record.Value() == cs[i];
        var added: Result<seq<Entry>> := Ok([]);
        if record.birthday.Some? {
          var anniversary := Anniversary(record.birthday.value, today);
          if anniversary.Err? {
            added := Err(anniversary.error);
          } else {
            var day := ShiftWeekend(anniversary.value);
            assert CongratulationDate(record.birthday.value, today) == Ok(day);
            if 0 <= ToOrdinal(day) - ToOrdinal(today) <= days {
              added := Ok([Entry(record.name, dateText(day))]);
            }
          }
        }
        assert added == Greeting(cs[i], today, days, dateText);
        UpcomingExtend(cs, i, upcoming, today, days, dateText);
        if added.Err? {
          assert Upcoming(cs, today, days, dateText) == Err(added.error);
          return Err(added.error);
        }
        upcoming := upcoming + added.value;
      }
      assert cs[..|names|] == cs;
      assert Upcoming(cs, today, days, dateText) == Ok(upcoming);
      return Ok(upcoming);
    }
  }
}
