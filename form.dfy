/**
 * components/RegistrationForm.tsx: the guest's form. It keeps the values typed
 * so far, keyed by field label, and the chosen price tier; on submit it appends
 * one submission record to the stored list and then asks the email generator for
 * two confirmation texts; payment opens a Cash App URL.
 */
module Form {
  import opened Types
  import opened Storage

  /** currentTotalPrice (line 38): the chosen tier's price, else the base price. */
  function TotalPrice(config: RegistrationConfig, entry: Option<PriceOption>): (p: Price)
    ensures entry.Some? ==> p == entry.value.price
    ensures entry.None? ==> p == config.price
  {
    if entry.Some? then entry.value.price else config.price
  }

  /** The entry chosen by the effect of lines 24-29: the first tier whenever there is one. */
  function DefaultEntry(config: RegistrationConfig): (r: Option<PriceOption>)
    ensures r.Some? <==> |config.priceOptions| > 0
    ensures r.Some? ==> r.value == config.priceOptions[0]
  {
    if |config.priceOptions| > 0 then Some(config.priceOptions[0]) else None
  }

  /** toLowerCase on the ASCII letters. */
  function LowerAscii(s: string): (t: string)
    ensures |t| == |s|
    ensures forall i :: 0 <= i < |s| ==> t[i] == (if 'A' <= s[i] <= 'Z' then (s[i] as int + 32) as char else s[i])
  {
    seq(|s|, i requires 0 <= i < |s| => if 'A' <= s[i] <= 'Z' then (s[i] as int + 32) as char else s[i])
  }

  /** String.prototype.includes. */
  predicate Contains(s: string, word: string)
    decreases |s|
  {
    (|word| <= |s| && s[..|word|] == word) || (s != [] && Contains(s[1..], word))
  }

  /** The position of the first field whose lower-cased label contains word, or -1. */
  function FirstLabelWith(fields: seq<FormField>, word: string): (k: int)
    ensures -1 <= k < |fields|
    ensures k == -1 <==> forall i :: 0 <= i < |fields| ==> !Contains(LowerAscii(fields[i].labelText), word)
    ensures k >= 0 ==> Contains(LowerAscii(fields[k].labelText), word)
    ensures k >= 0 ==> forall i :: 0 <= i < k ==> !Contains(LowerAscii(fields[i].labelText), word)
  {
    if fields == [] then -1
    else if Contains(LowerAscii(fields[0].labelText), word) then 0
    else
      var k := FirstLabelWith(fields[1..], word);
      if k == -1 then -1 else k + 1
  }

  /** fields.find(f => f.label.toLowerCase().includes(word))?.label || fallback. */
  function KeyFor(fields: seq<FormField>, word: string, fallback: string): (key: string)
    ensures key == fallback || exists i :: 0 <= i < |fields| && fields[i].labelText == key && key != []
  {
    var k := FirstLabelWith(fields, word);
    if k >= 0 && fields[k].labelText != [] then fields[k].labelText else fallback
  }

  /** nameKey (line 45). */
  function NameKey(fields: seq<FormField>): string
  {
    KeyFor(fields, "name", "Full Name")
  }

  /** emailKey (line 46). */
  function EmailKey(fields: seq<FormField>): string
  {
    KeyFor(fields, "email", "Email Address")
  }

  /** formData[nameKey] || 'Guest', as the template string renders it. */
  function RegistrantName(data: map<string, FormValue>, key: string): (name: string)
    ensures name != []
    ensures key in data && data[key].TextValue? && data[key].text != [] ==> name == data[key].text
    ensures key in data && data[key] == Checked(true) ==> name == "true"
    ensures key !in data || data[key] == TextValue("") || data[key] == Checked(false) ==> name == "Guest"
  {
    if key !in data then "Guest"
    else
      match data[key]
      case TextValue(t) => if t != [] then t else "Guest"
      case Checked(on) => if on then "true" else "Guest"
  }

  /** selectedEntry?.label || 'General Entry' (line 57). */
  function EntryLabel(entry: Option<PriceOption>): (l: string)
    ensures l != []
    ensures entry.Some? && entry.value.labelText != [] ==> l == entry.value.labelText
    ensures entry.None? || entry.value.labelText == [] ==> l == "General Entry"
  {
    if entry.Some? && entry.value.labelText != [] then entry.value.labelText else "General Entry"
  }

  /** The record handleSubmit pushes (lines 53-63); id and timestamp stand for Math.random() and Date.now(). */
  function NewSubmission(id: string, config: RegistrationConfig, data: map<string, FormValue>, entry: Option<PriceOption>,
                         food: string, allergies: string, timestamp: int): (s: Submission)
    ensures s.configId == config.id && !s.paid && s.totalPaid == TotalPrice(config, entry)
    ensures s.selectedEntryType == EntryLabel(entry) && s.data == data
  {
    Submission(id, config.id, data, EntryLabel(entry), food, allergies, TotalPrice(config, entry), timestamp, false)
  }

  /** The two confirmation texts. */
  datatype Emails = Emails(registrantEmail: string, adminEmail: string)

  /** What the email generator falls back to when its call fails. */
  function FallbackEmails(title: string, name: string): (e: Emails)
  {
    Emails(
      "Thank you for registering! We are blessed to have you join us. Stay tuned for further details.",
      "New registration for " + title + " by " + name + ". Please verify payment on Cash App.")
  }

  /** handlePayment's tag (line 74): one leading '$' removed. */
  function StripDollar(tag: string): (t: string)
    ensures t == tag || "$" + t == tag
    ensures |tag| > 0 && tag[0] == '$' ==> t == tag[1..]
  {
    if |tag| > 0 && tag[0] == '$' then tag[1..] else tag
  }

  /** The Cash App URL of line 75; amountText is the total as the template string renders the number. */
  function PaymentUrl(tag: string, amountText: string): string
  {
    "https://cash.app/$" + StripDollar(tag) + "/" + amountText
  }

  /** An input's onChange (lines 95, 109, 124, 139): a checkbox stores its state, every other input its text, under the field's label. */
  function Entered(data: map<string, FormValue>, field: FormField, text: string, checked: bool): (d: map<string, FormValue>)
    ensures d.Keys == data.Keys + {field.labelText}
    ensures d[field.labelText] == (if field.fieldType == Checkbox then Checked(checked) else TextValue(text))
    ensures forall k :: k in data && k != field.labelText ==> d[k] == data[k]
  {
    data[field.labelText := if field.fieldType == Checkbox then Checked(checked) else TextValue(text)]
  }

  class RegistrationForm {
    const config: RegistrationConfig
    const storage: LocalStorage
    var formData: map<string, FormValue>
    var selectedEntry: Option<PriceOption>
    var selectedFood: string
    var allergies: string
    var submitted: bool
    var sending: bool
    var paymentInitiated: bool
    var emails: Option<Emails>

    /** The first render followed by the default-entry effect. */
    constructor(config: RegistrationConfig, storage: LocalStorage)
      ensures this.config == config && this.storage == storage
      ensures formData == map[] && selectedEntry == DefaultEntry(config)
      ensures selectedFood == [] && allergies == []
      ensures !submitted && !sending && !paymentInitiated && emails == None
    {
      this.config := config;
      this.storage := storage;
      formData := map[];
      selectedEntry := DefaultEntry(config);
      selectedFood := [];
      allergies := [];
      submitted := false;
      sending := false;
      paymentInitiated := false;
      emails := None;
    }

    function CurrentTotalPrice(): Price
      reads this
    {
      TotalPrice(config, selectedEntry)
    }

    /** A change in the input rendered for field. */
    method Input(field: FormField, text: string, checked: bool)
      modifies this
      ensures formData == Entered(old(formData), field, text, checked)
      ensures selectedEntry == old(selectedEntry) && selectedFood == old(selectedFood) && allergies == old(allergies)
      ensures submitted == old(submitted) && sending == old(sending) && emails == old(emails)
      ensures paymentInitiated == old(paymentInitiated)
    {
      formData := Entered(formData, field, text, checked);
    }

    /** Choosing one of the offered tiers. */
    method ChooseEntry(option: PriceOption)
      requires option in config.priceOptions
      modifies this
      ensures selectedEntry == Some(option)
      ensures formData == old(formData) && selectedFood == old(selectedFood) && allergies == old(allergies)
      ensures submitted == old(submitted) && sending == old(sending) && emails == old(emails)
      ensures paymentInitiated == old(paymentInitiated)
    {
      selectedEntry := Some(option);
    }

    /** Picking one of the menu choices. */
    method ChooseFood(food: string)
      requires food in config.foodOptions
      modifies this
      ensures selectedFood == food
      ensures formData == old(formData) && selectedEntry == old(selectedEntry) && allergies == old(allergies)
      ensures submitted == old(submitted) && sending == old(sending) && emails == old(emails)
      ensures paymentInitiated == old(paymentInitiated)
    {
      selectedFood := food;
    }

    /** The allergies text area, rendered only when the config asks for it. */
    method EnterAllergies(text: string)
      requires config.includeAllergies
      modifies this
      ensures allergies == text
      ensures formData == old(formData) && selectedEntry == old(selectedEntry) && selectedFood == old(selectedFood)
      ensures submitted == old(submitted) && sending == old(sending) && emails == old(emails)
      ensures paymentInitiated == old(paymentInitiated)
    {
      allergies := text;
    }

    /**
     * handleSubmit (lines 40-70). The stored list is read (text that is not JSON
     * throws before anything is written), the record is pushed and written back
     * (a write that does not fit throws); only then is the generator awaited, and
     * reply is its answer, None where it failed.
     */
    method HandleSubmit(id: string, timestamp: int, fits: bool, reply: Option<Emails>)
      modifies this, storage
      ensures submitted
      ensures formData == old(formData) && selectedEntry == old(selectedEntry)
      ensures selectedFood == old(selectedFood) && allergies == old(allergies)
      ensures paymentInitiated == old(paymentInitiated)
      ensures storage.configs == old(storage.configs)
      ensures var rec := NewSubmission(id, config, formData, selectedEntry, selectedFood, allergies, timestamp);
        match StoredSubmissions(old(storage.submissions))
        case None =>
          storage.submissions == old(storage.submissions) && sending && emails == old(emails)
        case Some(list) =>
          storage.submissions == (if fits then Holds(list + [rec]) else old(storage.submissions))
          && sending == !fits
          && emails == (if !fits then old(emails)
                        else if reply.Some? then reply
                        else Some(FallbackEmails(config.title, RegistrantName(formData, NameKey(config.fields)))))
    {
      submitted := true;
      sending := true;
      var stored := StoredSubmissions(storage.submissions);
      if stored.None? {
        return;
      }
      var list := stored.value;
      list := list + [NewSubmission(id, config, formData, selectedEntry, selectedFood, allergies, timestamp)];
      var ok := storage.SetSubmissions(list, fits);
      if !ok {
        return;
      }
      var name := RegistrantName(formData, NameKey(config.fields));
      emails := if reply.Some? then reply else Some(FallbackEmails(config.title, name));
      sending := false;
    }

    /**
     * handlePayment (lines 72-78): the URL window.open receives. The amount is
     * the current total; render is how the template string writes a number.
     */
    method HandlePayment(render: Price -> string) returns (url: string)
      modifies this
      ensures url == PaymentUrl(config.cashAppTag, render(TotalPrice(config, selectedEntry)))
      ensures selectedEntry.Some? ==> url == PaymentUrl(config.cashAppTag, render(selectedEntry.value.price))
      ensures selectedEntry.None? ==> url == PaymentUrl(config.cashAppTag, render(config.price))
      ensures paymentInitiated
      ensures formData == old(formData) && selectedEntry == old(selectedEntry) && selectedFood == old(selectedFood)
      ensures allergies == old(allergies) && submitted == old(submitted) && sending == old(sending) && emails == old(emails)
    {
      var amount := CurrentTotalPrice();
      url := PaymentUrl(config.cashAppTag, render(amount));
      paymentInitiated := true;
    }
  }

  lemma ContainsAt(s: string, word: string, i: nat)
    requires i + |word| <= |s| && s[i..i + |word|] == word
    ensures Contains(s, word)
    decreases i
  {
    if i > 0 {
      assert s[1..][i - 1..i - 1 + |word|] == s[i..i + |word|];
      ContainsAt(s[1..], word, i - 1);
    }
  }

  /** The lookup takes the first matching field in order, case-insensitively: a later match never wins. */
  lemma NameKeyIsFirstMatch(fields: seq<FormField>, k: nat)
    requires k < |fields| && fields[k].labelText != []
    requires Contains(LowerAscii(fields[k].labelText), "name")
    requires forall i :: 0 <= i < k ==> !Contains(LowerAscii(fields[i].labelText), "name")
    ensures NameKey(fields) == fields[k].labelText
  {
  }

  /** The email key is found the same way: the first field whose lower-cased label contains "email". */
  lemma EmailKeyIsFirstMatch(fields: seq<FormField>, k: nat)
    requires k < |fields| && fields[k].labelText != []
    requires Contains(LowerAscii(fields[k].labelText), "email")
    requires forall i :: 0 <= i < k ==> !Contains(LowerAscii(fields[i].labelText), "email")
    ensures EmailKey(fields) == fields[k].labelText
  {
  }

  /** With no label mentioning "email" the key is 'Email Address'. */
  lemma EmailFallback(fields: seq<FormField>)
    requires forall i :: 0 <= i < |fields| ==> !Contains(LowerAscii(fields[i].labelText), "email")
    ensures EmailKey(fields) == "Email Address"
  {
  }

  /** With no label mentioning "name" the key is 'Full Name', and with no answer under it the registrant is 'Guest'. */
  lemma NameFallbacks(fields: seq<FormField>, data: map<string, FormValue>)
    requires forall i :: 0 <= i < |fields| ==> !Contains(LowerAscii(fields[i].labelText), "name")
    requires "Full Name" !in data
    ensures NameKey(fields) == "Full Name"
    ensures RegistrantName(data, NameKey(fields)) == "Guest"
  {
  }

  /** Upper-case labels match too: a field labelled "Your NAME" is the name field. */
  lemma UpperCaseLabelMatches()
    ensures NameKey([FormField("1", "Your NAME", Text, true, None)]) == "Your NAME"
  {
    var low := LowerAscii("Your NAME");
    assert low[5..9] == "name";
    ContainsAt(low, "name", 5);
  }

  /** The tag is stripped of at most one '$': "$$grace" pays "$grace". */
  lemma StripsOneDollar()
    ensures PaymentUrl("$$grace", "25") == "https://cash.app/$$grace/25"
    ensures PaymentUrl("grace", "25") == "https://cash.app/$grace/25"
  {
  }

  /** An edit sets exactly one key and keeps every other answer. */
  lemma EnteredKeepsOthers(data: map<string, FormValue>, field: FormField, text: string, checked: bool, other: string)
    requires other != field.labelText
    ensures other in Entered(data, field, text, checked) <==> other in data
    ensures other in data ==> Entered(data, field, text, checked)[other] == data[other]
  {
  }
}
