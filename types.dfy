/** The records every screen of the registration builder passes around. */
module Types {

  datatype Option<+T> = None | Some(value: T)

  // `label` is a Dafny keyword, so labels are stored in fields named labelText.

  /** Prices are carried and displayed, never computed with. */
  type Price = real

  datatype TemplateType = Valentine | ModernEvent | BiblicalSpiritual | Corporate

  datatype FieldType = Text | Email | Tel | Number | Select | Date | Checkbox | Textarea

  datatype PriceOption = PriceOption(id: string, labelText: string, price: Price)

  datatype FormField = FormField(
    id: string,
    labelText: string,
    fieldType: FieldType,
    required: bool,
    options: Option<seq<string>>)

  datatype RegistrationConfig = RegistrationConfig(
    id: string,
    title: string,
    description: string,
    logoUrl: Option<string>,
    price: Price,
    priceOptions: seq<PriceOption>,
    foodOptions: seq<string>,
    includeAllergies: bool,
    cashAppTag: string,
    template: TemplateType,
    fields: seq<FormField>,
    biblicalScript: Option<string>)

  /** A value entered in the form: text inputs store a string, checkboxes a boolean. */
  datatype FormValue = TextValue(text: string) | Checked(on: bool)

  datatype Submission = Submission(
    id: string,
    configId: string,
    data: map<string, FormValue>,
    selectedEntryType: string,
    selectedFood: string,
    allergies: string,
    totalPaid: Price,
    timestamp: int,
    paid: bool)

  /** What a storage key holds: nothing, text that is not a JSON list, or a list. */
  datatype Blob<T> = Missing | Unparsable | Holds(items: seq<T>)

  /** No two configurations share an id. */
  ghost predicate UniqueIds(configs: seq<RegistrationConfig>)
  {
    forall i, j :: 0 <= i < j < |configs| ==> configs[i].id != configs[j].id
  }
}
