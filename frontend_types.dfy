/**
 * The records the dashboard works with, after frontend/src/types/index.ts.
 * A missing optional field is `None`; a scheduled date is kept as the
 * calendar date it denotes.
 */
module FrontendTypes {
  import opened Wrappers
  import opened Calendar

  datatype Contact = Contact(
    id: string,
    name: string,
    phoneNumber: string,
    birthday: Option<string>,
    anniversary: Option<string>)

  /** `Omit<Contact, "id"> & { id?: string }`, what the contact dialog hands to `onSave`. */
  datatype ContactPayload = ContactPayload(
    id: Option<string>,
    name: string,
    phoneNumber: string,
    birthday: Option<string>,
    anniversary: Option<string>)

  datatype EventKind = Birthday | Anniversary

  /** The string `"birthday"` or `"anniversary"`. */
  function KindName(k: EventKind): string {
    match k
    case Birthday => "birthday"
    case Anniversary => "anniversary"
  }

  datatype Design = Confetti | Balloons | Hearts | Cake | Fireworks

  datatype MessageTemplate = MessageTemplate(id: string, kind: EventKind, design: Design, content: string)

  /** `Omit<MessageTemplate, "id"> & { id?: string }`, what the template dialog hands to `onSave`. */
  datatype TemplatePayload = TemplatePayload(id: Option<string>, kind: EventKind, design: Design, content: string)

  datatype Status = Scheduled | Sent

  datatype ScheduledMessage = ScheduledMessage(
    id: string,
    contactId: string,
    contactName: string,
    scheduledDate: CivilDate,
    kind: EventKind,
    status: Status,
    templateId: string)

  /** A present, non-empty string: the strings JavaScript treats as true. */
  predicate Truthy(s: Option<string>) {
    s.Some? && s.value != ""
  }
}
