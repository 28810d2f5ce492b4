/** The contact form's validation schema (src/features/contact/schemas/contactSchema.ts).
    Parsing a form yields the list of issues, field by field in the schema's order; the form is
    accepted when the list is empty. Whether a string is an e-mail address is decided by a
    predicate the caller supplies. */
module ContactSchema {

  import opened Wrappers

  /** The submitted form; the honeypot `website` may be absent. */
  datatype ContactForm = ContactForm(
    name: string,
    email: string,
    subject: string,
    message: string,
    website: Option<string>)

  datatype Field = Name | Email | Subject | Message | Website

  /** One failed check: the field it concerns and the message shown for it. */
  datatype Issue = Issue(field: Field, message: string)

  const NameTooShort: string := "Name must be at least 2 characters"
  const NameTooLong: string := "Name must be under 100 characters"
  const EmailInvalid: string := "Please enter a valid email address"
  const SubjectMissing: string := "Please select a subject"
  const MessageTooShort: string := "Message must be at least 10 characters"
  const MessageTooLong: string := "Message must be under 2000 characters"
  const BotDetected: string := "Bot detected"

  /** The subjects the form offers. */
  const Subjects: seq<string> := ["General Inquiry", "Event Suggestion", "Bug Report", "Partnership", "Other"]

  // ---------------------------------------------------------------- field predicates

  predicate NameOk(name: string) { 2 <= |name| <= 100 }

  predicate SubjectOk(subject: string) { subject in Subjects }

  predicate MessageOk(message: string) { 10 <= |message| <= 2000 }

  predicate WebsiteOk(website: Option<string>) { website.None? || website.value == "" }

  /** The whole form is acceptable: every field predicate holds. */
  predicate Acceptable(form: ContactForm, isEmail: string -> bool) {
    && NameOk(form.name)
    && isEmail(form.email)
    && SubjectOk(form.subject)
    && MessageOk(form.message)
    && WebsiteOk(form.website)
  }

  // ---------------------------------------------------------------- checks

  /** A string with a minimum and a maximum length: at most one of the two can fail. */
  function LengthIssues(field: Field, s: string, min: nat, max: nat, tooShort: string, tooLong: string)
    : (r: seq<Issue>)
    requires min <= max
    ensures r == [] <==> min <= |s| <= max
    ensures |r| <= 1
    ensures forall i :: 0 <= i < |r| ==> r[i].field == field
    ensures |s| < min ==> r == [Issue(field, tooShort)]
    ensures |s| > max ==> r == [Issue(field, tooLong)]
  {
    (if |s| < min then [Issue(field, tooShort)] else [])
    + (if |s| > max then [Issue(field, tooLong)] else [])
  }

  function NameIssues(name: string): (r: seq<Issue>)
    ensures r == [] <==> NameOk(name)
    ensures |r| <= 1 && forall i :: 0 <= i < |r| ==> r[i].field == Name
    ensures |name| < 2 ==> r == [Issue(Name, NameTooShort)]
    ensures |name| > 100 ==> r == [Issue(Name, NameTooLong)]
  {
    LengthIssues(Name, name, 2, 100, NameTooShort, NameTooLong)
  }

  function EmailIssues(email: string, isEmail: string -> bool): (r: seq<Issue>)
    ensures r == [] <==> isEmail(email)
    ensures r != [] ==> r == [Issue(Email, EmailInvalid)]
  {
    if isEmail(email) then [] else [Issue(Email, EmailInvalid)]
  }

  function SubjectIssues(subject: string): (r: seq<Issue>)
    ensures r == [] <==> SubjectOk(subject)
    ensures r != [] ==> r == [Issue(Subject, SubjectMissing)]
  {
    if subject in Subjects then [] else [Issue(Subject, SubjectMissing)]
  }

  function MessageIssues(message: string): (r: seq<Issue>)
    ensures r == [] <==> MessageOk(message)
    ensures |r| <= 1 && forall i :: 0 <= i < |r| ==> r[i].field == Message
    ensures |message| < 10 ==> r == [Issue(Message, MessageTooShort)]
    ensures |message| > 2000 ==> r == [Issue(Message, MessageTooLong)]
  {
    LengthIssues(Message, message, 10, 2000, MessageTooShort, MessageTooLong)
  }

  /** The honeypot: absent, or a string of length at most 0. */
  function WebsiteIssues(website: Option<string>): (r: seq<Issue>)
    ensures r == [] <==> WebsiteOk(website)
    ensures r != [] ==> r == [Issue(Website, BotDetected)]
  {
    match website
    case None => []
    case Some(w) => if |w| > 0 then [Issue(Website, BotDetected)] else []
  }

  /** `contactSchema` applied to a form: every field's issues, in the schema's field order. */
  function Validate(form: ContactForm, isEmail: string -> bool): (r: seq<Issue>)
    ensures r == [] <==> Acceptable(form, isEmail)
    ensures |r| <= 5
  {
    NameIssues(form.name) + EmailIssues(form.email, isEmail) + SubjectIssues(form.subject)
    + MessageIssues(form.message) + WebsiteIssues(form.website)
  }

  // ---------------------------------------------------------------- properties

  /** Some issue of the list concerns the field. */
  predicate Mentions(issues: seq<Issue>, field: Field) {
    exists i :: 0 <= i < |issues| && issues[i].field == field
  }

  lemma MentionsConcat(a: seq<Issue>, b: seq<Issue>, field: Field)
    ensures Mentions(a + b, field) <==> Mentions(a, field) || Mentions(b, field)
  {
    if Mentions(a + b, field) {
      var i :| 0 <= i < |a + b| && (a + b)[i].field == field;
      if i >= |a| {
        assert b[i - |a|].field == field;
      }
    }
    if Mentions(a, field) {
      var i :| 0 <= i < |a| && a[i].field == field;
      assert (a + b)[i].field == field;
    }
    if Mentions(b, field) {
      var i :| 0 <= i < |b| && b[i].field == field;
      assert (a + b)[|a| + i].field == field;
    }
  }

  /** A list whose issues all concern one field mentions that field exactly when it is not
      empty, and no other field. */
  lemma MentionsOneField(issues: seq<Issue>, owner: Field, field: Field)
    requires forall i :: 0 <= i < |issues| ==> issues[i].field == owner
    ensures Mentions(issues, field) <==> issues != [] && field == owner
  {
    if issues != [] && field == owner {
      assert issues[0].field == field;
    }
  }

  /** The issues of the whole form mention a field exactly when that field's own check
      reported something. */
  lemma ValidateMentions(form: ContactForm, isEmail: string -> bool, field: Field)
    ensures Mentions(Validate(form, isEmail), field)
            <==> || (field == Name && !NameOk(form.name))
                 || (field == Email && !isEmail(form.email))
                 || (field == Subject && !SubjectOk(form.subject))
                 || (field == Message && !MessageOk(form.message))
                 || (field == Website && !WebsiteOk(form.website))
  {
    var n := NameIssues(form.name);
    var e := EmailIssues(form.email, isEmail);
    var s := SubjectIssues(form.subject);
    var m := MessageIssues(form.message);
    var w := WebsiteIssues(form.website);
    MentionsConcat(n, e, field);
    MentionsConcat(n + e, s, field);
    MentionsConcat(n + e + s, m, field);
    MentionsConcat(n + e + s + m, w, field);
    MentionsOneField(n, Name, field);
    MentionsOneField(e, Email, field);
    MentionsOneField(s, Subject, field);
    MentionsOneField(m, Message, field);
    MentionsOneField(w, Website, field);
  }

  /** A field is reported exactly when its own predicate fails, whatever the other fields. */
  lemma IssueForFieldIffFieldFails(form: ContactForm, isEmail: string -> bool)
    ensures Mentions(Validate(form, isEmail), Name) <==> !NameOk(form.name)
    ensures Mentions(Validate(form, isEmail), Email) <==> !isEmail(form.email)
    ensures Mentions(Validate(form, isEmail), Subject) <==> !SubjectOk(form.subject)
    ensures Mentions(Validate(form, isEmail), Message) <==> !MessageOk(form.message)
    ensures Mentions(Validate(form, isEmail), Website) <==> !WebsiteOk(form.website)
  {
    ValidateMentions(form, isEmail, Name);
    ValidateMentions(form, isEmail, Email);
    ValidateMentions(form, isEmail, Subject);
    ValidateMentions(form, isEmail, Message);
    ValidateMentions(form, isEmail, Website);
  }

  /** A bot that fills in the hidden field is refused, however good the rest of the form. */
  lemma FilledHoneypotIsRefused(form: ContactForm, isEmail: string -> bool)
    requires form.website.Some? && form.website.value != ""
    ensures Validate(form, isEmail) != []
    ensures Validate(form, isEmail)[|Validate(form, isEmail)| - 1] == Issue(Website, BotDetected)
  {
  }

  /** The length bounds in the messages: "at least 2" and "under 100" both admit 2 and 100. */
  lemma NameBoundaries()
    ensures NameIssues("ab") == []
    ensures NameIssues("a") == [Issue(Name, NameTooShort)]
    ensures NameIssues(seq(100, _ => 'x')) == []
    ensures NameIssues(seq(101, _ => 'x')) == [Issue(Name, NameTooLong)]
  {
  }
}
