/**
 * An HTML template literal with four interpolated values, and where those
 * values land in the string it produces.
 */
module HtmlTemplate {
  import opened Text

  /** The fixed text of an HTML template around its four interpolated values. */
  datatype Template = Template(open: string, afterName: string, afterEmail: string, afterSubject: string, close: string)

  /** Template `t` with its four slots filled. */
  function Fill(t: Template, name: string, email: string, subject: string, body: string): string {
    t.open + (name + (t.afterName + (email + (t.afterEmail + (subject + (t.afterSubject + (body + t.close)))))))
  }

  lemma NameSlot(t: Template, name: string, email: string, subject: string, body: string)
    ensures OccursAt(name, Fill(t, name, email, subject, body), |t.open|)
  {
    var rest := t.afterName + (email + (t.afterEmail + (subject + (t.afterSubject + (body + t.close)))));
    OccursAtStart(name, rest);
    OccursShifted(t.open, name + rest, name, 0, |t.open|);
  }

  lemma EmailSlot(t: Template, name: string, email: string, subject: string, body: string)
    ensures OccursAt(email, Fill(t, name, email, subject, body), |t.open| + |name| + |t.afterName|)
  {
    var fromEmail := email + (t.afterEmail + (subject + (t.afterSubject + (body + t.close))));
    var fromName := name + (t.afterName + fromEmail);
    OccursAtStart(email, t.afterEmail + (subject + (t.afterSubject + (body + t.close))));
    OccursShifted(t.afterName, fromEmail, email, 0, |t.afterName|);
    OccursShifted(name, t.afterName + fromEmail, email, |t.afterName|, |name| + |t.afterName|);
    OccursShifted(t.open, fromName, email, |name| + |t.afterName|, |t.open| + |name| + |t.afterName|);
  }

  lemma SubjectSlot(t: Template, name: string, email: string, subject: string, body: string)
    ensures OccursAt(subject, Fill(t, name, email, subject, body),
      |t.open| + |name| + |t.afterName| + |email| + |t.afterEmail|)
  {
    var fromSubject := subject + (t.afterSubject + (body + t.close));
    var fromEmail := email + (t.afterEmail + fromSubject);
    var fromName := name + (t.afterName + fromEmail);
    var j2 := |t.afterEmail|;
    var j3 := |email| + j2;
    var j4 := |t.afterName| + j3;
    var j5 := |name| + j4;
    OccursAtStart(subject, t.afterSubject + (body + t.close));
    OccursShifted(t.afterEmail, fromSubject, subject, 0, j2);
    OccursShifted(email, t.afterEmail + fromSubject, subject, j2, j3);
    OccursShifted(t.afterName, fromEmail, subject, j3, j4);
    OccursShifted(name, t.afterName + fromEmail, subject, j4, j5);
    OccursShifted(t.open, fromName, subject, j5, |t.open| + |name| + |t.afterName| + |email| + |t.afterEmail|);
  }

  lemma BodySlot(t: Template, name: string, email: string, subject: string, body: string)
    ensures OccursAt(body, Fill(t, name, email, subject, body),
      |t.open| + |name| + |t.afterName| + |email| + |t.afterEmail| + |subject| + |t.afterSubject|)
  {
    var fromBody := body + t.close;
    var fromSubject := subject + (t.afterSubject + fromBody);
    var fromEmail := email + (t.afterEmail + fromSubject);
    var fromName := name + (t.afterName + fromEmail);
    var j1 := |t.afterSubject|;
    var j2 := |subject| + j1;
    var j3 := |t.afterEmail| + j2;
    var j4 := |email| + j3;
    var j5 := |t.afterName| + j4;
    var j6 := |name| + j5;
    OccursAtStart(body, t.close);
    OccursShifted(t.afterSubject, fromBody, body, 0, j1);
    OccursShifted(subject, t.afterSubject + fromBody, body, j1, j2);
    OccursShifted(t.afterEmail, fromSubject, body, j2, j3);
    OccursShifted(email, t.afterEmail + fromSubject, body, j3, j4);
    OccursShifted(t.afterName, fromEmail, body, j4, j5);
    OccursShifted(name, t.afterName + fromEmail, body, j5, j6);
    OccursShifted(t.open, fromName, body, j6,
      |t.open| + |name| + |t.afterName| + |email| + |t.afterEmail| + |subject| + |t.afterSubject|);
  }

  /**
   * Where the values land in a filled template: each one verbatim, with no
   * escaping, right after the fixed text that precedes it; nothing else is
   * added.
   */
  lemma FillLayout(t: Template, name: string, email: string, subject: string, body: string)
    ensures var h := Fill(t, name, email, subject, body);
      && OccursAt(name, h, |t.open|)
      && OccursAt(email, h, |t.open| + |name| + |t.afterName|)
      && OccursAt(subject, h, |t.open| + |name| + |t.afterName| + |email| + |t.afterEmail|)
      && OccursAt(body, h,
        |t.open| + |name| + |t.afterName| + |email| + |t.afterEmail| + |subject| + |t.afterSubject|)
      && |h| == |t.open| + |t.afterName| + |t.afterEmail| + |t.afterSubject| + |t.close|
        + |name| + |email| + |subject| + |body|
  {
    NameSlot(t, name, email, subject, body);
    EmailSlot(t, name, email, subject, body);
    SubjectSlot(t, name, email, subject, body);
    BodySlot(t, name, email, subject, body);
  }

  /** Every value of a filled template is a substring of it. */
  lemma FillCarries(t: Template, name: string, email: string, subject: string, body: string)
    ensures var h := Fill(t, name, email, subject, body);
      IsInfix(name, h) && IsInfix(email, h) && IsInfix(subject, h) && IsInfix(body, h)
  {
    FillLayout(t, name, email, subject, body);
    var h := Fill(t, name, email, subject, body);
    var e := |t.open| + |name| + |t.afterName|;
    var s := e + |email| + |t.afterEmail|;
    assert OccursAt(name, h, |t.open|);
    assert OccursAt(email, h, e);
    assert OccursAt(subject, h, s);
    assert OccursAt(body, h, s + |subject| + |t.afterSubject|);
  }
}
