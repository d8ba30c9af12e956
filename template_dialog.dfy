/**
 * The template form of frontend/src/components/TemplateDialog.tsx: three state
 * cells, the effect that fills them from the edited template (or resets
 * them), and `handleSubmit`, which refuses blank content and saves it trimmed.
 */
module TemplateDialog {
  import opened Wrappers
  import opened Strings
  import opened FrontendTypes

  datatype DialogEvent = Save(payload: TemplatePayload) | OpenChange(open: bool)

  class TemplateForm {
    var kind: EventKind
    var design: Design
    var content: string

    /** The initial state: `"birthday"`, `"confetti"` and no text. */
    constructor ()
      ensures kind == Birthday && design == Confetti && content == ""
    {
      kind := Birthday;
      design := Confetti;
      content := "";
    }

    /** The effect run when the edited template or `open` changes. */
    method Prefill(template: Option<MessageTemplate>)
      modifies this
      ensures template.Some? ==>
        kind == template.value.kind && design == template.value.design && content == template.value.content
      ensures template.None? ==> kind == Birthday && design == Confetti && content == ""
    {
      match template {
        case Some(t) =>
          kind := t.kind;
          design := t.design;
          content := t.content;
        case None =>
          kind := Birthday;
          design := Confetti;
          content := "";
      }
    }

    /**
     * `handleSubmit`: nothing at all when the content is blank; otherwise one
     * `onSave` with the trimmed content, the id only when the edited template has
     * a non-empty one, then `onOpenChange(false)`.
     */
    function Submit(template: Option<MessageTemplate>): (events: seq<DialogEvent>)
      reads this
      ensures events == [] <==> AllWhitespace(content)
      ensures events != [] ==>
        && |events| == 2 && events[0].Save? && events[1] == OpenChange(false)
        && events[0].payload.kind == kind && events[0].payload.design == design
        && events[0].payload.content == Trim(content)
        && events[0].payload.id == (if template.Some? && template.value.id != "" then Some(template.value.id) else None)
      ensures events != [] ==> var saved := events[0].payload.content;
        saved != [] && !IsJsWhitespace(saved[0]) && !IsJsWhitespace(saved[|saved| - 1])
    {
      TrimEmptyIff(content);
      TrimIsInfix(content);
      var trimmed := Trim(content);
      if trimmed == "" then []
      else
        var id := if template.Some? && template.value.id != "" then Some(template.value.id) else None;
        [Save(TemplatePayload(id, kind, design, trimmed)), OpenChange(false)]
    }
  }

  /** Opening a template and saving it unchanged keeps its id, type and design, and its content trimmed. */
  method EditRoundTrip(form: TemplateForm, t: MessageTemplate) returns (events: seq<DialogEvent>)
    requires t.id != "" && !AllWhitespace(t.content)
    modifies form
    ensures events == [Save(TemplatePayload(Some(t.id), t.kind, t.design, Trim(t.content))), OpenChange(false)]
  {
    form.Prefill(Some(t));
    events := form.Submit(Some(t));
  }
}
