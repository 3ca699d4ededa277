/** One contact: `Record` of operations/commands.py, with its phone list and
    optional birthday changed in place. */
module Contacts {
  import opened Outcomes
  import opened Calendar
  import opened Seqs

  /** A phone number field; two phones are the same when their texts are. */
  datatype Phone = Phone(value: string)

  /** The field layer this model does not contain: which texts `Phone`
      accepts, what `Birthday` parses a text to, and how a date is shown. */
  datatype Fields = Fields(
    validPhone: string -> bool,
    parseBirthday: string -> Option<Date>,
    dateText: Date -> string)

  /** `Phone(text)`, which raises on a text the field layer rejects. */
  function NewPhone(text: string, fields: Fields): (r: Result<Phone>)
    ensures r.Ok? <==> fields.validPhone(text)
    ensures r.Ok? ==> r.value.value == text
    ensures r.Err? ==> r.error == InvalidPhone
  {
    if fields.validPhone(text) then Ok(Phone(text)) else Err(InvalidPhone)
  }

  /** The state of a record as a value. */
  datatype Contact = Contact(name: string, phones: seq<Phone>, birthday: Option<Date>)

  /** The position of the first phone whose text is `text`, if any. */
  function FirstMatch(phones: seq<Phone>, text: string): (r: Option<nat>)
    ensures r.None? <==> forall j :: 0 <= j < |phones| ==> phones[j].value != text
    ensures r.Some? ==> r.value < |phones| && phones[r.value].value == text
    ensures r.Some? ==> forall j :: 0 <= j < r.value ==> phones[j].value != text
  {
    if phones == [] then None
    else if phones[0].value == text then Some(0)
    else match FirstMatch(phones[1..], text)
      case None => None
      case Some(k) => Some(k + 1)
  }

  function PhoneTexts(phones: seq<Phone>): (r: seq<string>)
    ensures |r| == |phones|
    ensures forall i :: 0 <= i < |phones| ==> r[i] == phones[i].value
  {
    seq(|phones|, i requires 0 <= i < |phones| => phones[i].value)
  }

  /** `str(record)`: the name, the phones joined by "; " and the birthday,
      or "Not set" when there is none. */
  function ContactText(c: Contact, dateText: Date -> string): (s: string)
    ensures StartsWith(s, "Contact name: " + c.name + ", phones: ")
    ensures c.birthday.None? ==> EndsWith(s, ", birthday: Not set")
    ensures c.birthday.Some? ==> EndsWith(s, ", birthday: " + dateText(c.birthday.value))
  {
    var head := "Contact name: " + c.name + ", phones: ";
    var tail := ", birthday: " + (if c.birthday.Some? then dateText(c.birthday.value) else "Not set");
    var s := head + Join(PhoneTexts(c.phones), "; ") + tail;
    assert s[..|head|] == head;
    assert s[|s| - |tail|..] == tail;
    s
  }

  class Record {
    const name: string
    var phones: seq<Phone>
    var birthday: Option<Date>

    constructor (name: string)
      ensures this.name == name && phones == [] && birthday == None
    {
      this.name := name;
      phones := [];
      birthday := None;
    }

    function Value(): (c: Contact)
      reads this
      ensures c.name == name && c.phones == phones && c.birthday == birthday
    {
      Contact(name, phones, birthday)
    }

    /** Stores the parsed birthday, replacing any earlier one; a text that
        does not parse raises and leaves the birthday as it was. */
    method AddBirthday(text: string, fields: Fields) returns (res: Outcome)
      modifies this`birthday
      ensures fields.parseBirthday(text).Some? ==> res == Done && birthday == fields.parseBirthday(text)
      ensures fields.parseBirthday(text).None? ==> res == Failed(InvalidBirthday) && birthday == old(birthday)
    {
      match fields.parseBirthday(text)
      case None => res := Failed(InvalidBirthday);
      case Some(d) => birthday := Some(d); res := Done;
    }

    /** Appends one phone at the end; an invalid text raises before the
        append, so the list stays as it was. */
    method AddPhone(text: string, fields: Fields) returns (res: Outcome)
      modifies this`phones
      ensures fields.validPhone(text) ==> res == Done && phones == old(phones) + [Phone(text)]
      ensures !fields.validPhone(text) ==> res == Failed(InvalidPhone) && phones == old(phones)
    {
      match NewPhone(text, fields)
      case Err(e) => res := Failed(e);
      case Ok(p) => phones := phones + [p]; res := Done;
    }

    /** Rebuilds the list without the phones whose text is `text`. */
    method RemovePhone(text: string)
      modifies this`phones
      ensures phones == Without(old(phones), Phone(text))
    {
      phones := Without(phones, Phone(text));
    }

    /** Replaces the first phone whose text is `oldText` by a phone with
        text `newText`; raises, changing nothing, when there is no such phone
        or when the new text is not a valid phone. */
    method EditPhone(oldText: string, newText: string, fields: Fields) returns (res: Outcome)
      modifies this`phones
      ensures FirstMatch(old(phones), oldText).None? ==> res == Failed(NotFound) && phones == old(phones)
      ensures FirstMatch(old(phones), oldText).Some? && !fields.validPhone(newText) ==>
        res == Failed(InvalidPhone) && phones == old(phones)
      ensures FirstMatch(old(phones), oldText).Some? && fields.validPhone(newText) ==>
        res == Done && phones == old(phones)[FirstMatch(old(phones), oldText).value := Phone(newText)]
    {
      var found := FindPhone(oldText);
      if found.None? {
        return Failed(NotFound);
      }
      var index := FirstMatch(phones, found.value.value).value;
      match NewPhone(newText, fields)
      case Err(e) => res := Failed(e);
      case Ok(p) => phones := phones[index := p]; res := Done;
    }

    /** The first phone whose text is `text`, or None. */
    method FindPhone(text: string) returns (found: Option<Phone>)
      ensures FirstMatch(phones, text).None? ==> found.None?
      ensures FirstMatch(phones, text).Some? ==> found == Some(phones[FirstMatch(phones, text).value])
    {
      for i := 0 to |phones|
        invariant forall j :: 0 <= j < i ==> phones[j].value != text
      {
        if phones[i].value == text {
          return Some(phones[i]);
        }
      }
      return None;
    }
  }
}
