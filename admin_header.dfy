/**
  components/admin/admin-header.tsx: the avatar initials derived from the
  signed-in user's email.
 */
module AdminHeader {
  import opened JsText

  const FallbackInitials: string := "AD"

  /** `email.split("@")[0]`: the text before the first '@', or the whole
      email when it has none. */
  function LocalPart(email: string): (local: string)
    ensures '@' !in local
    ensures StartsWith(email, local)
    ensures |local| < |email| ==> email[|local|] == '@'
  {
    if email == [] || email[0] == '@' then [] else [email[0]] + LocalPart(email[1..])
  }

  /** `s.substring(0, 2)`: the longest prefix of `s` that fits in two UTF-16
      code units. (When the second character needs two code units the source
      keeps its lone first half, which a string of characters cannot hold;
      that half is dropped here.) */
  function FirstTwo(s: string): (r: string)
    ensures StartsWith(s, r)
    ensures Utf16Length(r) <= 2
    ensures |r| < |s| ==> Utf16Length(s[..|r| + 1]) > 2
    ensures s != [] ==> r != []
  {
    if s == [] then []
    else if CodeUnits(s[0]) == 2 || |s| == 1 then [s[0]]
    else if CodeUnits(s[1]) == 1 then s[..2]
    else [s[0]]
  }

  /** initials: the first two characters of the email's local part, upper
      cased, or "AD" when there is no email or the local part is empty. */
  function Initials(email: Option<string>): (r: string)
    ensures r != ""
    ensures email.None? ==> r == FallbackInitials
    ensures email.Some? && LocalPart(email.value) == "" ==> r == FallbackInitials
    ensures email.Some? && LocalPart(email.value) != "" ==>
      r == ToUpperCase(FirstTwo(LocalPart(email.value)))
  {
    match email
    case None => FallbackInitials
    case Some(e) =>
      var shown := ToUpperCase(FirstTwo(LocalPart(e)));
      if shown != "" then shown else FallbackInitials
  }

  /** With an email whose local part is non-empty, the initials are its first
      one or two characters in upper case: one letter for a one-letter local
      part, never an '@', never a lower-case ASCII letter. */
  lemma {:induction false} InitialsOfEmail(e: string)
    requires e != [] && e[0] != '@'
    ensures var r := Initials(Some(e));
      1 <= |r| <= 2 && IsUpperCase(r) && '@' !in r &&
      r[0] == UpperChar(e[0]) &&
      (|r| == 2 <==> |e| >= 2 && e[1] != '@' && CodeUnits(e[0]) == 1 && CodeUnits(e[1]) == 1) &&
      (|r| == 2 ==> r[1] == UpperChar(e[1]))
  {
    var local := LocalPart(e);
    assert local[0] == e[0];
    if |e| >= 2 && e[1] != '@' {
      assert local == [e[0]] + LocalPart(e[1..]);
      assert LocalPart(e[1..])[0] == e[1];
    } else if |e| >= 2 {
      assert LocalPart(e[1..]) == [];
    }
    ToUpperCaseIsUpper(FirstTwo(local));
  }

  /** An email that starts with '@' falls back to "AD". */
  lemma LeadingAtFallsBack(e: string)
    requires e != [] && e[0] == '@'
    ensures Initials(Some(e)) == FallbackInitials
  {
  }

  lemma InitialsExamples()
    ensures Initials(Some("budi@desa.id")) == "BU"
    ensures Initials(Some("x@desa.id")) == "X"
    ensures Initials(None) == "AD"
    ensures Initials(Some("\U{1F600}x@desa.id")) == "\U{1F600}"
  {
    InitialsOfEmail("budi@desa.id");
    InitialsOfEmail("x@desa.id");
    InitialsOfEmail("\U{1F600}x@desa.id");
  }
}
