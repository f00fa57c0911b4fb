/** The newsletter form: the email test `/^[^\s@]+@[^\s@]+\.[^\s@]+$/` and
    the `status` machine ("" → "invalid" | "loading" → "success"). The
    1.5-second `setTimeout` is the explicit step `TimerFires`. */
module Newsletter {
  import opened Text

  /** `[^\s@]`. */
  predicate Plain(c: char)
  {
    !IsSpace(c) && c != '@'
  }

  /** `[^\s@]+`. */
  predicate PlainRun(s: string)
  {
    |s| > 0 && forall k :: 0 <= k < |s| ==> Plain(s[k])
  }

  /** The regular expression matches `s` with its `@` at `at` and the `\.` at `dot`. */
  predicate MatchAt(s: string, at: int, dot: int)
  {
    0 < at < dot < |s| - 1 && s[at] == '@' && s[dot] == '.' &&
    PlainRun(s[..at]) && PlainRun(s[at + 1..dot]) && PlainRun(s[dot + 1..])
  }

  /** The language of the regular expression. */
  ghost predicate InEmailLanguage(s: string)
  {
    exists at, dot :: MatchAt(s, at, dot)
  }

  /** The first index of `c` in `s`. */
  function IndexOf(s: string, c: char): (i: nat)
    requires c in s
    ensures i < |s| && s[i] == c && c !in s[..i]
    decreases |s|
  {
    if s[0] == c then 0
    else
      assert s == [s[0]] + s[1..];
      var i := IndexOf(s[1..], c);
      assert s[..i + 1] == [s[0]] + s[1..][..i];
      i + 1
  }

  /** The check as the browser's matcher decides it: no white space, exactly
      one `@` with something before it, and a `.` in the domain that is
      neither its first nor its last character. */
  predicate ValidEmail(s: string)
  {
    (forall k :: 0 <= k < |s| ==> !IsSpace(s[k])) &&
    '@' in s &&
    var at := IndexOf(s, '@');
    var domain := s[at + 1..];
    at > 0 && '@' !in domain && |domain| >= 3 && '.' in domain[1..|domain| - 1]
  }

  /** Every string the check accepts is in the regular expression's language. */
  lemma ValidEmailInLanguage(s: string)
    requires ValidEmail(s)
    ensures InEmailLanguage(s)
  {
    var at := IndexOf(s, '@');
    var domain := s[at + 1..];
    var inner := domain[1..|domain| - 1];
    var k :| 0 <= k < |inner| && inner[k] == '.';
    var dot := at + 2 + k;
    assert s[dot] == '.';
    assert forall m :: 0 <= m < at ==> s[m] == s[..at][m];
    assert forall m :: at < m < |s| ==> s[m] == domain[m - at - 1];
    assert MatchAt(s, at, dot);
  }

  /** A run of plain characters holds no `@`. */
  lemma PlainRunHasNoAt(s: string)
    requires PlainRun(s)
    ensures '@' !in s
  {
  }

  /** In a match, the `@` the check finds first is the one the expression matched. */
  lemma MatchedAtIsFirst(s: string, at: int, dot: int)
    requires MatchAt(s, at, dot)
    ensures '@' in s && IndexOf(s, '@') == at
  {
    assert s[at] == '@';
    PlainRunHasNoAt(s[..at]);
    var i := IndexOf(s, '@');
    assert s[..i + 1][i] == '@';
  }

  /** A match holds no white space and no `@` after the matched one. */
  lemma MatchedCharacters(s: string, at: int, dot: int)
    requires MatchAt(s, at, dot)
    ensures forall k :: 0 <= k < |s| ==> !IsSpace(s[k])
    ensures forall k :: at < k < |s| ==> s[k] != '@'
  {
    forall k | 0 <= k < |s|
      ensures !IsSpace(s[k]) && (at < k ==> s[k] != '@')
    {
      if k < at {
        assert s[k] == s[..at][k];
      } else if at < k < dot {
        assert s[k] == s[at + 1..dot][k - at - 1];
      } else if dot < k {
        assert s[k] == s[dot + 1..][k - dot - 1];
      }
    }
  }

  /** Every string of the regular expression's language passes the check. */
  lemma LanguageIsValidEmail(s: string)
    requires InEmailLanguage(s)
    ensures ValidEmail(s)
  {
    var at, dot :| MatchAt(s, at, dot);
    MatchedAtIsFirst(s, at, dot);
    MatchedCharacters(s, at, dot);
    var domain := s[at + 1..];
    assert '@' !in domain by {
      forall j | 0 <= j < |domain|
        ensures domain[j] != '@'
      {
        assert domain[j] == s[at + 1 + j];
      }
    }
    assert domain[1..|domain| - 1][dot - at - 2] == '.';
  }

  /** The check accepts exactly the strings of the regular expression's language. */
  lemma ValidEmailIffLanguage(s: string)
    ensures ValidEmail(s) <==> InEmailLanguage(s)
  {
    if ValidEmail(s) {
      ValidEmailInLanguage(s);
    }
    if InEmailLanguage(s) {
      LanguageIsValidEmail(s);
    }
  }

  /** The form's `status`. */
  datatype Status = Idle | Invalid | Loading | Success

  class SubscribeForm {
    var email: string
    var status: Status
    var pendingTimers: nat

    constructor ()
      ensures email == "" && status == Idle && pendingTimers == 0
    {
      email, status, pendingTimers := "", Idle, 0;
    }

    method SetEmail(value: string)
      modifies this`email
      ensures email == value
    {
      email := value;
    }

    /** `handleSubmit`: a rejected email only sets "invalid"; an accepted one
        sets "loading" and schedules the completion. The email is not touched. */
    method HandleSubmit()
      modifies this`status, this`pendingTimers
      ensures !ValidEmail(email) ==> status == Invalid && pendingTimers == old(pendingTimers)
      ensures ValidEmail(email) ==> status == Loading && pendingTimers == old(pendingTimers) + 1
    {
      if !ValidEmail(email) {
        status := Invalid;
        return;
      }
      status := Loading;
      pendingTimers := pendingTimers + 1;
    }

    /** The scheduled completion: "success", and the email field is cleared. */
    method TimerFires()
      requires pendingTimers > 0
      modifies this
      ensures status == Success && email == "" && pendingTimers == old(pendingTimers) - 1
    {
      status := Success;
      email := "";
      pendingTimers := pendingTimers - 1;
    }

    /** `disabled={status === "loading"}`. */
    predicate SubmitDisabled()
      reads this
    {
      status == Loading
    }
  }
}
