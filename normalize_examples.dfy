/** Worked inputs for the normalisers of cert_filler.py, including the ones that
    show what the code does not promise: the phrase and token removals are not
    idempotent and can create the very phrase they remove. */
module NormalizeExamples {
  import opened Wrappers
  import opened Text
  import opened Normalize
  import UrlParse

  /** Text that none of the phrases can touch: trimmed, not empty, without an en
      dash and without the first character of any phrase. */
  predicate Plain(t: string) {
    t != [] && Trimmed(t) && EnDash !in t &&
    ':' !in t && 'A' !in t && 'G' !in t && 'M' !in t && 'C' !in t && 'H' !in t && 'K' !in t && 'c' !in t
  }

  /** Every phrase starts with one of the characters plain text avoids. */
  lemma PlainUntouched(t: string)
    requires Plain(t)
    ensures forall k :: 0 <= k < |Phrases| ==> Phrases[k][0] !in t
  {
    forall k | 0 <= k < |Phrases|
      ensures Phrases[k][0] !in t
    {
      assert Phrases[k][0] in ":AGMCHKc";
    }
  }

  /** One pass of the removal loop at phrase k. */
  lemma Step(s: string, k: nat, t: string)
    requires k < |Phrases| && Strip(Replace(s, Phrases[k], "")) == t
    ensures RemovePhrases(s, Phrases[k..]) == RemovePhrases(t, Phrases[k + 1..])
  {
    assert Phrases[k..][0] == Phrases[k] && Phrases[k..][1..] == Phrases[k + 1..];
  }

  /** A pass whose phrase cannot start anywhere in a trimmed string changes nothing. */
  lemma Skip(s: string, k: nat)
    requires k < |Phrases| && Trimmed(s) && Phrases[k][0] !in s
    ensures RemovePhrases(s, Phrases[k..]) == RemovePhrases(s, Phrases[k + 1..])
  {
    ReplaceAbsent(s, Phrases[k], "");
    Step(s, k, s);
  }

  /** The colon pass leaves alone a trimmed string without a colon. */
  lemma SkipColon(s: string)
    requires Trimmed(s) && ':' !in s
    ensures RemovePhrases(s, Phrases) == RemovePhrases(s, Phrases[1..])
  {
    ReplaceAbsent(s, Phrases[0], "");
  }

  /** The phrases the worked titles meet, by position. */
  lemma PhraseNames()
    ensures Phrases[1] == "AWS" && Phrases[2] == "Google Cloud" && Phrases[5] == "Certified"
    ensures Phrases[8] == "CKA" && Phrases[9] == "cert" && Phrases[10] == "Certification"
  {
  }

  /** The "HashiCorp" and "KCNA" passes leave alone a trimmed string without 'H' or 'K'. */
  lemma SkipHashiCorpKcna(s: string)
    requires Trimmed(s) && 'H' !in s && 'K' !in s
    ensures RemovePhrases(s, Phrases[6..]) == RemovePhrases(s, Phrases[8..])
  {
    Skip(s, 6);
    Skip(s, 7);
  }

  /** The passes from phrase k on leave plain text alone. */
  lemma Rest(t: string, k: nat)
    requires Plain(t) && k <= |Phrases|
    ensures RemovePhrases(t, Phrases[k..]) == t
  {
    PlainUntouched(t);
    RemovePhrasesAbsent(t, Phrases[k..]);
  }

  /** The shape of FmtCert once the removal loop is known; plain text is then
      only collapsed. */
  lemma Finish(raw: string, t: string)
    requires Plain(t) && RemovePhrases(raw, Phrases) == t
    ensures FmtCert(raw) == Collapse(t)
  {
    ReplaceAbsent(t, [EnDash], "-");
  }

  /** The shape of FmtCert once the removal loop is known, for any text left. */
  lemma Tail(raw: string, t: string)
    requires RemovePhrases(raw, Phrases) == t
    ensures FmtCert(raw) == Collapse(Strip(Replace(t, [EnDash], "-")))
  {
  }

  /** A pass whose phrase does not occur in a trimmed string changes nothing. */
  lemma Keep(s: string, k: nat)
    requires k < |Phrases| && Trimmed(s) && Replace(s, Phrases[k], "") == s
    ensures RemovePhrases(s, Phrases[k..]) == RemovePhrases(s, Phrases[k + 1..])
  {
    Step(s, k, s);
  }

  /** A word the pattern leaves alone, after text in which the pattern cannot start
      and a space, is left alone together with that text. */
  lemma KeepAfter(t: string, w: string, pat: string)
    requires pat != [] && pat[0] !in t && pat[0] != ' ' && Replace(w, pat, "") == w
    ensures Replace(t + (" " + w), pat, "") == t + (" " + w)
  {
    ReplaceSkip(t, " " + w, pat, "");
    ReplaceSkip(" ", w, pat, "");
  }

  /** A single word without whitespace is well spaced and collapses to itself. */
  lemma SpacedWord(w: string)
    requires w != [] && NoSpace(w)
    ensures Collapse(w) == w
  {
    WordSpaced(w);
    CollapseWellSpaced(w);
  }

  /** A single word without whitespace is well spaced. */
  lemma WordSpaced(w: string)
    requires w != [] && NoSpace(w)
    ensures WellSpaced(w)
  {
  }

  /** Four words without whitespace, joined by single spaces, are well spaced. */
  lemma SpacedFour(a: string, b: string, c: string, d: string)
    requires a != [] && b != [] && c != [] && d != []
    requires NoSpace(a) && NoSpace(b) && NoSpace(c) && NoSpace(d)
    ensures WellSpaced(a + (" " + (b + (" " + (c + (" " + d))))))
  {
    var ws, w1, w2 := [a, b, c, d], [b, c, d], [c, d];
    JoinWords(ws);
    assert w2[1..] == [d] && Join(w2) == c + " " + d;
    assert w1[1..] == w2 && Join(w1) == b + " " + Join(w2);
    assert ws[1..] == w1 && Join(ws) == a + " " + Join(w1);
    assert Join(ws) == a + (" " + (b + (" " + (c + (" " + d)))));
  }

  /** Replace by a pattern without a space, over four space-separated words. */
  lemma FourWords(a: string, b: string, c: string, d: string, pat: string, rep: string)
    requires pat != [] && ' ' !in pat
    ensures Replace(a + (" " + (b + (" " + (c + (" " + d))))), pat, rep)
         == Replace(a, pat, rep) + (" " + (Replace(b, pat, rep) + (" " + (Replace(c, pat, rep) + (" " + Replace(d, pat, rep))))))
  {
    ReplaceWords(c, d, pat, rep);
    ReplaceWords(b, c + (" " + d), pat, rep);
    ReplaceWords(a, b + (" " + (c + (" " + d))), pat, rep);
  }

  /** A word of one capital letter followed by lowercase letters. */
  predicate Capitalised(w: string) {
    w != [] && 'A' <= w[0] <= 'Z' && forall i :: 1 <= i < |w| ==> 'a' <= w[i] <= 'z'
  }

  /** Every character of a capitalised word other than its first is a lowercase letter. */
  lemma CapitalisedChars(w: string)
    requires Capitalised(w)
    ensures NoSpace(w) && EnDash !in w
    ensures forall c :: c in w ==> c == w[0] || 'a' <= c <= 'z'
  {
    forall c | c in w
      ensures c == w[0] || 'a' <= c <= 'z'
    {
      var i :| 0 <= i < |w| && w[i] == c;
    }
  }

  /** A capitalised word whose capital starts no phrase, and without 'c', is plain. */
  lemma CapitalisedPlain(w: string)
    requires Capitalised(w) && w[0] !in ":AGMCHK" && 'c' !in w
    ensures Plain(w) && NoSpace(w)
  {
    CapitalisedChars(w);
  }

  /** Plain text, a space and a word capitalised with 'C' hold none of the other
      phrases' first capitals, and are trimmed. */
  lemma CapitalisedAfter(t: string, w: string)
    requires Plain(t) && Capitalised(w) && w[0] == 'C'
    ensures var s := t + (" " + w);
            Trimmed(s) && ':' !in s && 'A' !in s && 'G' !in s && 'M' !in s && 'H' !in s && 'K' !in s
  {
    CapitalisedChars(w);
  }

  /** Two plain words with a space between them are plain. */
  lemma PlainWords(a: string, b: string)
    requires Plain(a) && Plain(b)
    ensures Plain(a + (" " + b))
  {
  }

  /** Two words without whitespace, joined by one space, are well spaced. */
  lemma SpacedWords(a: string, b: string)
    requires a != [] && b != [] && NoSpace(a) && NoSpace(b)
    ensures WellSpaced(a + (" " + b))
  {
    var ws := [a, b];
    JoinWords(ws);
    assert ws[1..] == [b];
    assert Join(ws) == a + (" " + b);
  }

  /** A phrase at the front followed by a space and text in which the phrase
      cannot start: removing it and stripping leaves the text. */
  lemma HitStrip(pat: string, t: string)
    requires pat != [] && pat[0] != ' ' && pat[0] !in t && Trimmed(t)
    ensures Strip(Replace(pat + (" " + t), pat, "")) == t
  {
    var r := " " + t;
    ReplaceHit(r, pat, "");
    ReplaceAbsent(r, pat, "");
    assert "" + r == r;
    StripSpaceFront(t);
  }

  /** The first two passes (":" and "AWS") leave alone a trimmed string without
      a colon or a capital A. */
  lemma SkipFirstTwo(s: string)
    requires Trimmed(s) && ':' !in s && 'A' !in s
    ensures RemovePhrases(s, Phrases) == RemovePhrases(s, Phrases[2..])
  {
    var ps := Phrases;
    assert ps[0][0] == ':' && ps[1][0] == 'A';
    SkipPrefix(s, ps, 2);
  }

  /** Passes whose phrases cannot start anywhere in a trimmed string change nothing. */
  lemma {:induction false} SkipPrefix(s: string, ps: seq<Phrase>, n: nat)
    requires n <= |ps| && Trimmed(s)
    requires forall k :: 0 <= k < n ==> ps[k][0] !in s
    ensures RemovePhrases(s, ps) == RemovePhrases(s, ps[n..])
  {
    if n > 0 {
      ReplaceAbsent(s, ps[0], "");
      SkipPrefix(s, ps[1..], n - 1);
      assert ps[1..][n - 1..] == ps[n..];
    }
  }

  /** Pass k meets its phrase at the front of s, followed by a space and text in
      which the phrase cannot start: the pass leaves that text. */
  lemma HitAt(s: string, k: nat, t: string)
    requires k < |Phrases| && Phrases[k][0] != ' ' && Phrases[k][0] !in t && Trimmed(t)
    requires s == Phrases[k] + (" " + t)
    ensures RemovePhrases(s, Phrases[k..]) == RemovePhrases(t, Phrases[k + 1..])
  {
    HitStrip(Phrases[k], t);
    Step(s, k, t);
  }

  /** "Google Cloud" is removed whole, before "Google" is: no "Cloud" is left. */
  lemma GoogleCloudFirst(t: string)
    requires Plain(t)
    ensures FmtCert("Google Cloud " + t) == Collapse(t)
  {
    GoogleCloudShape(t);
    SkipFirstTwo("Google Cloud " + t);
    GoogleCloudHit(t);
    Finish("Google Cloud " + t, t);
  }

  lemma GoogleCloudHit(t: string)
    requires Plain(t)
    ensures RemovePhrases("Google Cloud " + t, Phrases[2..]) == t
  {
    GoogleCloudShape(t);
    HitAt("Google Cloud " + t, 2, t);
    Rest(t, 3);
  }

  lemma GoogleCloudShape(t: string)
    requires Plain(t)
    ensures var s := "Google Cloud " + t;
            s == "Google Cloud" + (" " + t) && Trimmed(s) && ':' !in s && 'A' !in s
  {
    assert "Google Cloud " == "Google Cloud" + " ";
    Reassoc("Google Cloud", " ", t);
  }

  /** Removing "Google" first would have left "Cloud" behind. */
  lemma GoogleAloneKeepsCloud(t: string)
    requires Plain(t)
    ensures Strip(Replace("Google Cloud " + t, "Google", "")) == "Cloud " + t
  {
    var r := " Cloud " + t;
    GoogleAloneShape(t);
    ReplaceHit(r, "Google", "");
    ReplaceAbsent(r, "Google", "");
    assert "" + r == r;
    StripSpaceFront("Cloud " + t);
  }

  lemma GoogleAloneShape(t: string)
    requires Plain(t)
    ensures "Google Cloud " + t == "Google" + (" Cloud " + t)
    ensures " Cloud " + t == " " + ("Cloud " + t) && Trimmed("Cloud " + t) && 'G' !in " Cloud " + t
  {
    assert "Google Cloud " == "Google" + " Cloud ";
    Reassoc("Google", " Cloud ", t);
    assert " Cloud " == " " + "Cloud ";
    Reassoc(" ", "Cloud ", t);
  }

  /** The listing title "Google Cloud Digital Leader" becomes "Digital Leader". */
  lemma CertGoogleCloud()
    ensures FmtCert("Google Cloud Digital Leader") == "Digital Leader"
  {
    DigitalLeaderPlain();
    DigitalLeaderSpaced();
    GoogleCloudFirst("Digital Leader");
    DigitalLeaderTitle();
  }

  lemma DigitalLeaderTitle()
    ensures "Google Cloud " + "Digital Leader" == "Google Cloud Digital Leader"
  {
  }

  lemma DigitalLeaderPlain()
    ensures Plain("Digital Leader")
  {
    DigitalWord();
    LeaderWord();
    PlainWords("Digital", "Leader");
    DigitalLeaderJoin();
  }

  lemma DigitalLeaderSpaced()
    ensures Collapse("Digital Leader") == "Digital Leader"
  {
    DigitalWord();
    LeaderWord();
    SpacedWords("Digital", "Leader");
    DigitalLeaderJoin();
    CollapseWellSpaced("Digital Leader");
  }

  lemma DigitalWord()
    ensures Plain("Digital") && NoSpace("Digital")
  {
    DigitalCapitalised();
    CapitalisedPlain("Digital");
  }

  lemma DigitalCapitalised()
    ensures Capitalised("Digital") && "Digital"[0] == 'D' && 'c' !in "Digital"
  {
  }

  lemma LeaderWord()
    ensures Plain("Leader") && NoSpace("Leader")
  {
    LeaderCapitalised();
    CapitalisedPlain("Leader");
  }

  lemma LeaderCapitalised()
    ensures Capitalised("Leader") && "Leader"[0] == 'L' && 'c' !in "Leader"
  {
  }

  lemma DigitalLeaderJoin()
    ensures "Digital" + (" " + "Leader") == "Digital Leader"
  {
  }

  // ------------------------------------------------------------ "Certification"

  /** Lowercase "cert", "Certified" and "CKA" all miss the word "Certification";
      it is removed only by the last phrase. */
  lemma CertificationLast(t: string)
    requires Plain(t)
    ensures FmtCert(t + " Certification") == Collapse(t)
  {
    var s := t + " Certification";
    CertificationFront(t);
    CertificationMiddle(t);
    CertificationLate(t);
    CertificationEnd(t);
    Finish(s, t);
  }

  lemma CertificationShape(t: string)
    requires Plain(t)
    ensures var s := t + " Certification";
            s == t + (" " + "Certification") && Trimmed(s) &&
            ':' !in s && 'A' !in s && 'G' !in s && 'M' !in s && 'H' !in s && 'K' !in s
  {
    CertificationWord();
    CapitalisedAfter(t, "Certification");
    assert " Certification" == " " + "Certification";
    Reassoc(t, " ", "Certification");
  }

  lemma CertificationWord()
    ensures Capitalised("Certification") && "Certification"[0] == 'C'
  {
  }

  lemma CertificationFront(t: string)
    requires Plain(t)
    ensures RemovePhrases(t + " Certification", Phrases) == RemovePhrases(t + " Certification", Phrases[5..])
  {
    CertificationShape(t);
    var ps := Phrases;
    assert ps[0][0] == ':' && ps[1][0] == 'A' && ps[2][0] == 'G' && ps[3][0] == 'G' && ps[4][0] == 'M';
    SkipPrefix(t + " Certification", ps, 5);
  }

  lemma CertificationMiddle(t: string)
    requires Plain(t)
    ensures RemovePhrases(t + " Certification", Phrases[5..]) == RemovePhrases(t + " Certification", Phrases[8..])
  {
    var s := t + " Certification";
    CertificationShape(t);
    PhraseNames();
    CertificationKeepsCertified();
    KeepAfter(t, "Certification", "Certified");
    Keep(s, 5);
    SkipHashiCorpKcna(s);
  }

  lemma CertificationLate(t: string)
    requires Plain(t)
    ensures RemovePhrases(t + " Certification", Phrases[8..]) == RemovePhrases(t + " Certification", Phrases[10..])
  {
    CertificationCka(t);
    CertificationCert(t);
  }

  lemma CertificationCka(t: string)
    requires Plain(t)
    ensures RemovePhrases(t + " Certification", Phrases[8..]) == RemovePhrases(t + " Certification", Phrases[9..])
  {
    CertificationNoCka(t);
    Keep(t + " Certification", 8);
  }

  lemma CertificationNoCka(t: string)
    requires Plain(t)
    ensures Trimmed(t + " Certification")
    ensures Replace(t + " Certification", Phrases[8], "") == t + " Certification"
  {
    CertificationShape(t);
    CertificationKeepsCka();
    PhraseNames();
    KeepAfter(t, "Certification", "CKA");
  }

  lemma CertificationCert(t: string)
    requires Plain(t)
    ensures RemovePhrases(t + " Certification", Phrases[9..]) == RemovePhrases(t + " Certification", Phrases[10..])
  {
    CertificationNoCert(t);
    Keep(t + " Certification", 9);
  }

  lemma CertificationNoCert(t: string)
    requires Plain(t)
    ensures Trimmed(t + " Certification")
    ensures Replace(t + " Certification", Phrases[9], "") == t + " Certification"
  {
    CertificationShape(t);
    CertificationKeepsCert();
    PhraseNames();
    KeepAfter(t, "Certification", "cert");
  }

  lemma CertificationEnd(t: string)
    requires Plain(t)
    ensures RemovePhrases(t + " Certification", Phrases[10..]) == t
  {
    var s := t + " Certification";
    CertificationShape(t);
    ReplaceSkip(t, " " + "Certification", "Certification", "");
    ReplaceSkip(" ", "Certification", "Certification", "");
    CertificationHit();
    PhraseNames();
    assert t + (" " + "") == t + " ";
    StripPadded([], t, " ");
    assert [] + (t + " ") == t + " ";
    Step(s, 10, t);
    Rest(t, 11);
  }

  lemma CertificationHit()
    ensures Replace("Certification", "Certification", "") == ""
  {
    ReplaceHit([], "Certification", "");
    assert "Certification" + [] == "Certification";
  }

  lemma CertificationKeepsCertified()
    ensures Replace("Certification", "Certified", "") == "Certification"
  {
    CertificationSplit9();
    ReplaceNear("Certifica", "tion", "Certified", "");
    ReplaceShort("tion", "Certified", "");
  }

  lemma CertificationSplit9()
    ensures "Certifica" + "tion" == "Certification"
  {
  }

  lemma CertificationKeepsCka()
    ensures Replace("Certification", "CKA", "") == "Certification"
  {
    CertificationSplit3();
    TificationKeepsCka();
    ReplaceNear("Cer", "tification", "CKA", "");
  }

  lemma CertificationSplit3()
    ensures "Cer" + "tification" == "Certification"
  {
  }

  lemma TificationKeepsCka()
    ensures Replace("tification", "CKA", "") == "tification"
  {
    ReplaceAbsent("tification", "CKA", "");
  }

  lemma CertificationKeepsCert()
    ensures Replace("Certification", "cert", "") == "Certification"
  {
    CertificationSplit7();
    CationKeepsCert();
    ReplaceSkip("Certifi", "cation", "cert", "");
  }

  lemma CertificationSplit7()
    ensures "Certifi" + "cation" == "Certification"
  {
  }

  lemma CationKeepsCert()
    ensures Replace("cation", "cert", "") == "cation"
  {
    assert "cati" + "on" == "cation";
    ReplaceNear("cati", "on", "cert", "");
    ReplaceShort("on", "cert", "");
  }

  /** The listing title "Terraform Certification" becomes "Terraform". */
  lemma CertTerraform()
    ensures FmtCert("Terraform Certification") == "Terraform"
  {
    TerraformWord();
    SpacedWord("Terraform");
    CertificationLast("Terraform");
    TerraformTitle();
  }

  lemma TerraformWord()
    ensures Plain("Terraform") && NoSpace("Terraform")
  {
    TerraformCapitalised();
    CapitalisedPlain("Terraform");
  }

  lemma TerraformCapitalised()
    ensures Capitalised("Terraform") && "Terraform"[0] == 'T' && 'c' !in "Terraform"
  {
  }

  lemma TerraformTitle()
    ensures "Terraform" + " Certification" == "Terraform Certification"
  {
  }

  // ------------------------------------------------------------ "AWS Certified"

  /** Text after "AWS Certified " that no later pass touches except the en dash
      replacement: no colon, no capital G, M, C, H or K, and no "AWS" or "cert". */
  predicate RoleText(t: string) {
    t != [] && Trimmed(t) && NoLaterCaps(t) && Replace(t, "AWS", "") == t && Replace(t, "cert", "") == t
  }

  /** None of the characters that start the phrases after "AWS", bar lowercase "cert". */
  predicate NoLaterCaps(w: string) {
    ':' !in w && 'G' !in w && 'M' !in w && 'C' !in w && 'H' !in w && 'K' !in w
  }

  lemma CapitalisedNoLaterCaps(w: string)
    requires Capitalised(w) && w[0] !in ":GMCHK"
    ensures NoLaterCaps(w) && NoSpace(w)
  {
    CapitalisedChars(w);
  }

  lemma JoinNoLaterCaps(a: string, b: string)
    requires NoLaterCaps(a) && NoLaterCaps(b)
    ensures NoLaterCaps(a + (" " + b))
  {
  }

  /** The vendor and "Certified" prefixes both go; the rest only has its en dash
      replaced and its whitespace collapsed. */
  lemma AwsCertified(t: string)
    requires RoleText(t)
    ensures FmtCert("AWS Certified " + t) == Collapse(Strip(Replace(t, [EnDash], "-")))
  {
    AwsFront(t);
    AwsMiddle(t);
    AwsRest(t);
    Tail("AWS Certified " + t, t);
  }

  lemma AwsShape(t: string)
    requires RoleText(t)
    ensures var s1 := "Certified " + t;
            "AWS Certified " + t == "AWS" + (" " + s1) && s1 == "Certified" + (" " + t) &&
            " " + s1 == " Certified " + t && 'A' !in " Certified " &&
            Trimmed("AWS Certified " + t) && Trimmed(s1) && ':' !in "AWS Certified " + t &&
            'G' !in s1 && 'M' !in s1
  {
    AwsJoins(t);
    assert 'A' !in " Certified " && ':' !in "AWS Certified " && 'G' !in "Certified " && 'M' !in "Certified ";
  }

  lemma AwsJoins(t: string)
    ensures "AWS Certified " + t == "AWS" + (" " + ("Certified " + t))
    ensures "Certified " + t == "Certified" + (" " + t)
    ensures " " + ("Certified " + t) == " Certified " + t
  {
    assert "AWS Certified " == "AWS" + (" " + "Certified ");
    Reassoc("AWS", " " + "Certified ", t);
    Reassoc(" ", "Certified ", t);
    assert "Certified " == "Certified" + " ";
    Reassoc("Certified", " ", t);
  }

  /** The colon pass leaves the title alone and the "AWS" pass removes the vendor. */
  lemma AwsFront(t: string)
    requires RoleText(t)
    ensures RemovePhrases("AWS Certified " + t, Phrases) == RemovePhrases("Certified " + t, Phrases[2..])
  {
    var s0 := "AWS Certified " + t;
    var s1 := "Certified " + t;
    AwsShape(t);
    SkipColon(s0);
    AwsRemoved(t);
    PhraseNames();
    Step(s0, 1, s1);
  }

  lemma AwsRemoved(t: string)
    requires RoleText(t)
    ensures Strip(Replace("AWS Certified " + t, "AWS", "")) == "Certified " + t
  {
    var s1 := "Certified " + t;
    AwsShape(t);
    ReplaceHit(" " + s1, "AWS", "");
    ReplaceSkip(" Certified ", t, "AWS", "");
    assert "" + (" " + s1) == " " + s1;
    StripSpaceFront(s1);
  }

  /** The Google and Microsoft passes miss, and the "Certified" pass removes the word. */
  lemma AwsMiddle(t: string)
    requires RoleText(t)
    ensures RemovePhrases("Certified " + t, Phrases[2..]) == RemovePhrases(t, Phrases[6..])
  {
    var s1 := "Certified " + t;
    AwsShape(t);
    Skip(s1, 2);
    Skip(s1, 3);
    Skip(s1, 4);
    CertifiedHit(t);
  }

  lemma CertifiedHit(t: string)
    requires RoleText(t)
    ensures RemovePhrases("Certified " + t, Phrases[5..]) == RemovePhrases(t, Phrases[6..])
  {
    AwsShape(t);
    PhraseNames();
    HitAt("Certified " + t, 5, t);
  }

  /** The remaining passes leave the role text alone. */
  lemma AwsRest(t: string)
    requires RoleText(t)
    ensures RemovePhrases(t, Phrases[6..]) == t
  {
    SkipHashiCorpKcna(t);
    AwsRestCka(t);
    AwsRestCert(t);
  }

  lemma AwsRestCka(t: string)
    requires RoleText(t)
    ensures RemovePhrases(t, Phrases[8..]) == RemovePhrases(t, Phrases[9..])
  {
    PhraseNames();
    assert Phrases[8][0] == 'C';
    Skip(t, 8);
  }

  lemma AwsRestCert(t: string)
    requires RoleText(t)
    ensures RemovePhrases(t, Phrases[9..]) == t
  {
    PhraseNames();
    Keep(t, 9);
    Skip(t, 10);
    assert Phrases[11..] == [];
  }

  /** The listing title "AWS Certified Solutions Architect – Associate" becomes
      "Solutions Architect - Associate". */
  lemma CertArchitect()
    ensures FmtCert("AWS Certified Solutions Architect \U{2013} Associate") == "Solutions Architect - Associate"
  {
    var t := "Solutions" + (" " + ("Architect" + (" " + ([EnDash] + (" " + "Associate")))));
    var r := "Solutions" + (" " + ("Architect" + (" " + ("-" + (" " + "Associate")))));
    ArchitectRole();
    AwsCertified(t);
    ArchitectDash();
    ArchitectSpaced();
    ArchitectTitle();
    ArchitectName();
  }

  lemma ArchitectWords()
    ensures Capitalised("Solutions") && Capitalised("Architect") && Capitalised("Associate")
    ensures "Solutions"[0] == 'S' && "Architect"[0] == 'A' && "Associate"[0] == 'A'
    ensures "Solutions"[|"Solutions"| - 1] == 's' && "Associate"[|"Associate"| - 1] == 'e'
  {
  }

  lemma ArchitectRole()
    ensures RoleText("Solutions" + (" " + ("Architect" + (" " + ([EnDash] + (" " + "Associate"))))))
  {
    ArchitectChars();
    ArchitectKeepsAws();
    ArchitectKeepsCert();
  }

  lemma ArchitectChars()
    ensures var t := "Solutions" + (" " + ("Architect" + (" " + ([EnDash] + (" " + "Associate")))));
            t != [] && Trimmed(t) && NoLaterCaps(t)
  {
    ArchitectWords();
    CapitalisedNoLaterCaps("Solutions");
    CapitalisedNoLaterCaps("Architect");
    CapitalisedNoLaterCaps("Associate");
    DashWord();
    JoinNoLaterCaps([EnDash], "Associate");
    JoinNoLaterCaps("Architect", [EnDash] + (" " + "Associate"));
    JoinNoLaterCaps("Solutions", "Architect" + (" " + ([EnDash] + (" " + "Associate"))));
    SpacedFour("Solutions", "Architect", [EnDash], "Associate");
  }

  lemma DashWord()
    ensures NoLaterCaps([EnDash]) && NoSpace([EnDash])
  {
  }

  lemma ArchitectKeepsAws()
    ensures var t := "Solutions" + (" " + ("Architect" + (" " + ([EnDash] + (" " + "Associate")))));
            Replace(t, "AWS", "") == t
  {
    FourWords("Solutions", "Architect", [EnDash], "Associate", "AWS", "");
    ReplaceAbsent("Solutions", "AWS", "");
    ReplaceAbsent([EnDash], "AWS", "");
    ArchitectWordKeepsAws();
    AssociateKeepsAws();
  }

  lemma ArchitectWordKeepsAws()
    ensures Replace("Architect", "AWS", "") == "Architect"
  {
    assert "Arc" + "hitect" == "Architect";
    ReplaceNear("Arc", "hitect", "AWS", "");
    ReplaceAbsent("hitect", "AWS", "");
  }

  lemma AssociateKeepsAws()
    ensures Replace("Associate", "AWS", "") == "Associate"
  {
    assert "Ass" + "ociate" == "Associate";
    ReplaceNear("Ass", "ociate", "AWS", "");
    ReplaceAbsent("ociate", "AWS", "");
  }

  lemma ArchitectKeepsCert()
    ensures var t := "Solutions" + (" " + ("Architect" + (" " + ([EnDash] + (" " + "Associate")))));
            Replace(t, "cert", "") == t
  {
    FourWords("Solutions", "Architect", [EnDash], "Associate", "cert", "");
    ArchitectWordsKeepCert();
  }

  lemma ArchitectWordsKeepCert()
    ensures Replace("Solutions", "cert", "") == "Solutions" && Replace("Architect", "cert", "") == "Architect"
    ensures Replace([EnDash], "cert", "") == [EnDash] && Replace("Associate", "cert", "") == "Associate"
  {
    ReplaceAbsent("Solutions", "cert", "");
    ReplaceAbsent([EnDash], "cert", "");
    ArchitectWordKeepsCert();
    AssociateKeepsCert();
  }

  lemma ArchitectWordKeepsCert()
    ensures Replace("Architect", "cert", "") == "Architect"
  {
    assert "Ar" + ("chit" + "ect") == "Architect";
    EctKeepsCert();
    ReplaceNear("chit", "ect", "cert", "");
    ReplaceSkip("Ar", "chit" + "ect", "cert", "");
  }

  lemma EctKeepsCert()
    ensures Replace("ect", "cert", "") == "ect"
  {
    ReplaceShort("ect", "cert", "");
  }

  lemma AssociateKeepsCert()
    ensures Replace("Associate", "cert", "") == "Associate"
  {
    assert "Asso" + ("ciat" + "e") == "Associate";
    ReplaceShort("e", "cert", "");
    ReplaceNear("ciat", "e", "cert", "");
    ReplaceSkip("Asso", "ciat" + "e", "cert", "");
  }

  /** The en dash becomes '-' and nothing else changes. */
  lemma ArchitectDash()
    ensures Replace("Solutions" + (" " + ("Architect" + (" " + ([EnDash] + (" " + "Associate"))))), [EnDash], "-")
         == "Solutions" + (" " + ("Architect" + (" " + ("-" + (" " + "Associate")))))
  {
    ArchitectWords();
    CapitalisedChars("Solutions");
    CapitalisedChars("Architect");
    CapitalisedChars("Associate");
    FourWords("Solutions", "Architect", [EnDash], "Associate", [EnDash], "-");
    ReplaceAbsent("Solutions", [EnDash], "-");
    ReplaceAbsent("Architect", [EnDash], "-");
    ReplaceAbsent("Associate", [EnDash], "-");
    ReplaceHit([], [EnDash], "-");
    assert [EnDash] + [] == [EnDash] && "-" + [] == "-";
  }

  /** The dashed name is already trimmed and well spaced. */
  lemma ArchitectSpaced()
    ensures var r := "Solutions" + (" " + ("Architect" + (" " + ("-" + (" " + "Associate")))));
            Collapse(Strip(r)) == r
  {
    var r := "Solutions" + (" " + ("Architect" + (" " + ("-" + (" " + "Associate")))));
    ArchitectWords();
    CapitalisedChars("Solutions");
    CapitalisedChars("Architect");
    CapitalisedChars("Associate");
    assert NoSpace("-");
    SpacedFour("Solutions", "Architect", "-", "Associate");
    CollapseWellSpaced(r);
  }

  lemma ArchitectTitle()
    ensures "AWS Certified " + ("Solutions" + (" " + ("Architect" + (" " + ([EnDash] + (" " + "Associate"))))))
         == "AWS Certified Solutions Architect \U{2013} Associate"
  {
  }

  lemma ArchitectName()
    ensures "Solutions" + (" " + ("Architect" + (" " + ("-" + (" " + "Associate")))))
         == "Solutions Architect - Associate"
  {
  }

  // ------------------------------------------------------------ not idempotent

  /** The first characters of the phrases from position 2 and from position 4 on. */
  lemma LaterStarts()
    ensures forall k :: 2 <= k < |Phrases| ==> Phrases[k][0] in "GMCHKc"
    ensures forall k :: 4 <= k < |Phrases| ==> Phrases[k][0] in "MCHKc"
  {
  }

  /** The passes from n on leave alone a trimmed string in which none of their
      phrases can start. */
  lemma RestFrom(w: string, n: nat)
    requires n <= |Phrases| && Trimmed(w)
    requires forall k :: n <= k < |Phrases| ==> Phrases[k][0] !in w
    ensures RemovePhrases(w, Phrases[n..]) == w
  {
    forall k | 0 <= k < |Phrases[n..]|
      ensures Phrases[n..][k][0] !in w
    {
      assert Phrases[n..][k] == Phrases[n + k];
    }
    RemovePhrasesAbsent(w, Phrases[n..]);
  }

  /** Text that a pass empties stays empty. */
  lemma EmptyFrom(n: nat)
    requires n <= |Phrases|
    ensures RemovePhrases([], Phrases[n..]) == []
  {
    RemovePhrasesAbsent([], Phrases[n..]);
  }

  /** An emptied title gives the empty name. */
  lemma EmptyName(raw: string)
    requires RemovePhrases(raw, Phrases) == []
    ensures FmtCert(raw) == []
  {
    Tail(raw, []);
    ReplaceShort([], [EnDash], "-");
  }

  /** Deleting the inner "Google" of "GoogGooglele" joins the outer letters into
      a new "Google": the name is "Google". */
  lemma CertGoogGooglele()
    ensures FmtCert("GoogGooglele") == "Google"
  {
    GoogTwice("Google");
    GoogJoins();
  }

  lemma GoogJoins()
    ensures "Goog" + ("Google" + "le") == "GoogGooglele" && "Goog" + "le" == "Google"
  {
  }

  /** The removal passes over "Goog", g, "le" with g the phrase "Google". The
      phrase is a parameter so that the proof works on the three pieces. */
  lemma GoogTwice(g: string)
    requires g == "Google"
    ensures FmtCert("Goog" + (g + "le")) == "Goog" + "le"
  {
    var s := "Goog" + (g + "le");
    GoogFront(g);
    GoogPasses(g);
    GoogRest();
    assert RemovePhrases(s, Phrases) == "Goog" + "le";
    GoogWord();
    Finish2(s, "Goog" + "le");
  }

  lemma GoogWord()
    ensures "Goog" + "le" != [] && NoSpace("Goog" + "le") && EnDash !in "Goog" + "le"
  {
  }

  lemma GoogFront(g: string)
    requires g == "Google"
    ensures RemovePhrases("Goog" + (g + "le"), Phrases) == RemovePhrases("Goog" + (g + "le"), Phrases[2..])
  {
    GoogShape(g);
    SkipColon("Goog" + (g + "le"));
    Skip("Goog" + (g + "le"), 1);
  }

  lemma GoogPasses(g: string)
    requires g == "Google"
    ensures RemovePhrases("Goog" + (g + "le"), Phrases[2..]) == RemovePhrases("Goog" + "le", Phrases[4..])
  {
    var s := "Goog" + (g + "le");
    GoogCloudMisses(g);
    Step(s, 2, s);
    GoogInside(g);
    Step(s, 3, "Goog" + "le");
  }

  lemma GoogShape(g: string)
    requires g == "Google"
    ensures var s := "Goog" + (g + "le");
            Trimmed(s) && ':' !in s && 'A' !in s && |s| == 12 && s[0] == 'G' && s[1..] == "oog" + (g + "le")
            && Phrases[3] == g
  {
  }

  lemma GoogCloudMisses(g: string)
    requires g == "Google"
    ensures Strip(Replace("Goog" + (g + "le"), Phrases[2], "")) == "Goog" + (g + "le")
  {
    var s := "Goog" + (g + "le");
    GoogShape(g);
    PhraseNames();
    assert s[..12][4] != "Google Cloud"[4];
    assert s == ['G'] + s[1..];
    ReplaceMiss('G', s[1..], "Google Cloud", "");
    ReplaceShort(s[1..], "Google Cloud", "");
  }

  lemma GoogInside(g: string)
    requires g == "Google"
    ensures Strip(Replace("Goog" + (g + "le"), Phrases[3], "")) == "Goog" + "le"
  {
    var s := "Goog" + (g + "le");
    GoogShape(g);
    var b := "oog" + (g + "le");
    assert s[..6][4] != g[4];
    assert s == ['G'] + b;
    ReplaceMiss('G', b, g, "");
    ReplaceSkip("oog", g + "le", g, "");
    ReplaceHit("le", g, "");
    ReplaceShort("le", g, "");
    assert ['G'] + ("oog" + ("" + "le")) == "Goog" + "le";
    assert Trimmed("Goog" + "le");
  }

  lemma GoogRest()
    ensures RemovePhrases("Goog" + "le", Phrases[4..]) == "Goog" + "le"
  {
    LaterStarts();
    assert Trimmed("Goog" + "le") && 'M' !in "Goog" + "le" && 'C' !in "Goog" + "le";
    assert 'H' !in "Goog" + "le" && 'K' !in "Goog" + "le" && 'c' !in "Goog" + "le";
    RestFrom("Goog" + "le", 4);
  }

  lemma PhraseNames3()
    ensures Phrases[3] == "Google"
  {
  }

  /** FmtCert once the removal loop has left a single word without whitespace. */
  lemma Finish2(raw: string, w: string)
    requires RemovePhrases(raw, Phrases) == w && w != [] && NoSpace(w) && EnDash !in w
    ensures FmtCert(raw) == w
  {
    Tail(raw, w);
    ReplaceAbsent(w, [EnDash], "-");
    SpacedWord(w);
  }

  /** A lone "Google" is removed whole: the name is empty. */
  lemma CertGoogle()
    ensures FmtCert("Google") == ""
  {
    GoogleAlone("Google");
  }

  lemma GoogleAlone(g: string)
    requires g == "Google"
    ensures FmtCert(g) == ""
  {
    GoogleFront(g);
    GoogleGone(g);
    EmptyFrom(4);
    assert RemovePhrases(g, Phrases) == [];
    EmptyName(g);
  }

  lemma GoogleFront(g: string)
    requires g == "Google"
    ensures RemovePhrases(g, Phrases) == RemovePhrases(g, Phrases[3..])
  {
    GoogleFacts(g);
    SkipColon(g);
    Skip(g, 1);
    GoogleCloudPass(g);
  }

  lemma GoogleFacts(g: string)
    requires g == "Google"
    ensures Trimmed(g) && ':' !in g && Phrases[1][0] !in g
  {
    PhraseNames();
  }

  lemma GoogleCloudPass(g: string)
    requires g == "Google"
    ensures RemovePhrases(g, Phrases[2..]) == RemovePhrases(g, Phrases[3..])
  {
    PhraseNames();
    ReplaceShort(g, "Google Cloud", "");
    GoogleFacts(g);
    Step(g, 2, g);
  }

  lemma GoogleGone(g: string)
    requires g == "Google"
    ensures RemovePhrases(g, Phrases[3..]) == RemovePhrases([], Phrases[4..])
  {
    PhraseNames3();
    ReplaceHit([], g, "");
    assert g + [] == g;
    Step(g, 3, []);
  }

  /** bsc_fmt_cert is not idempotent: cleaning its own output can change it. */
  lemma CertNotIdempotent()
    ensures FmtCert(FmtCert("GoogGooglele")) != FmtCert("GoogGooglele")
  {
    CertGoogGooglele();
    CertGoogle();
  }

  /** Deleting "cert" from "AWcertS" leaves the vendor name it was meant to have
      removed already: the name is "AWS". */
  lemma CertAwcerts()
    ensures FmtCert("AWcertS") == "AWS"
  {
    AwcertsAlone("AWcertS", "AWS");
  }

  lemma AwcertsAlone(a: string, w: string)
    requires a == "AWcertS" && w == "AWS"
    ensures FmtCert(a) == w
  {
    AwcertsFirst(a);
    AwcertsMiddle();
    AwcertsEnd(a, w);
    assert RemovePhrases(a, Phrases) == w;
    AwsWord(w);
    Finish2(a, w);
  }

  lemma AwcertsFirst(a: string)
    requires a == "AWcertS"
    ensures RemovePhrases(a, Phrases) == RemovePhrases(a, Phrases[2..])
  {
    AwcertsColon(a);
    AwcertsAwsPass(a);
  }

  lemma AwcertsColon(a: string)
    requires a == "AWcertS"
    ensures RemovePhrases(a, Phrases) == RemovePhrases(a, Phrases[1..])
  {
    AwcertsPieces();
    SkipColon(a);
  }

  lemma AwcertsAwsPass(a: string)
    requires a == "AWcertS"
    ensures RemovePhrases(a, Phrases[1..]) == RemovePhrases(a, Phrases[2..])
  {
    AwcertsPieces();
    AwcertsKeepsAws();
    PhraseNames();
    Keep(a, 1);
  }

  lemma AwcertsEnd(a: string, w: string)
    requires a == "AWcertS" && w == "AWS"
    ensures RemovePhrases(a, Phrases[9..]) == w
  {
    AwcertsCert();
    Step(a, 9, w);
    AwsLast(w);
  }

  lemma AwsLast(w: string)
    requires w == "AWS"
    ensures RemovePhrases(w, Phrases[10..]) == w
  {
    AwsWord(w);
    PhraseNames();
    Skip(w, 10);
    assert Phrases[11..] == [];
  }

  lemma AwcertsPieces()
    ensures "AWcertS" == "AW" + ("cert" + "S") && Trimmed("AWcertS") && ':' !in "AWcertS"
    ensures "AWcertS" == "AWc" + "ertS"
  {
  }

  lemma AwcertsKeepsAws()
    ensures Replace("AWcertS", "AWS", "") == "AWcertS"
  {
    AwcertsPieces();
    ReplaceNear("AWc", "ertS", "AWS", "");
    ReplaceAbsent("ertS", "AWS", "");
  }

  lemma AwcertsMiddle()
    ensures RemovePhrases("AWcertS", Phrases[2..]) == RemovePhrases("AWcertS", Phrases[9..])
  {
    AwcertsSkips("AWcertS");
  }

  lemma AwcertsSkips(a: string)
    requires a == "AWcertS"
    ensures RemovePhrases(a, Phrases[2..]) == RemovePhrases(a, Phrases[9..])
  {
    AwcertsLetters(a);
    MiddleStarts();
    SkipPrefix(a, Phrases[2..], 7);
    assert Phrases[2..][7..] == Phrases[9..];
  }

  lemma AwcertsLetters(a: string)
    requires a == "AWcertS"
    ensures Trimmed(a) && 'G' !in a && 'M' !in a && 'C' !in a && 'H' !in a && 'K' !in a
  {
  }

  /** Phrases 2 to 8 start with a capital letter out of "GMCHK". */
  lemma MiddleStarts()
    ensures forall k :: 0 <= k < 7 ==> Phrases[2..][k][0] in "GMCHK"
  {
  }

  lemma AwcertsCert()
    ensures Strip(Replace("AWcertS", Phrases[9], "")) == "AWS"
  {
    AwcertsPieces();
    PhraseNames();
    ReplaceSkip("AW", "cert" + "S", "cert", "");
    ReplaceHit("S", "cert", "");
    ReplaceShort("S", "cert", "");
    assert "AW" + ("" + "S") == "AWS";
  }

  lemma AwsWord(w: string)
    requires w == "AWS"
    ensures w != [] && Trimmed(w) && ':' !in w && 'C' !in w && NoSpace(w) && EnDash !in w
  {
  }

  /** A lone "AWS" is removed: the name is empty. */
  lemma CertAws()
    ensures FmtCert("AWS") == ""
  {
    AwsAlone("AWS");
  }

  lemma AwsAlone(w: string)
    requires w == "AWS"
    ensures FmtCert(w) == ""
  {
    AwsGone(w);
    EmptyFrom(2);
    assert RemovePhrases(w, Phrases) == [];
    EmptyName(w);
  }

  lemma AwsGone(w: string)
    requires w == "AWS"
    ensures RemovePhrases(w, Phrases) == RemovePhrases([], Phrases[2..])
  {
    AwsColon(w);
    AwsPass(w);
  }

  lemma AwsColon(w: string)
    requires w == "AWS"
    ensures RemovePhrases(w, Phrases) == RemovePhrases(w, Phrases[1..])
  {
    AwsWord(w);
    SkipColon(w);
  }

  lemma AwsPass(w: string)
    requires w == "AWS"
    ensures RemovePhrases(w, Phrases[1..]) == RemovePhrases([], Phrases[2..])
  {
    PhraseNames();
    ReplaceHit([], w, "");
    assert w + [] == w;
    Step(w, 1, []);
  }

  // ---------------------------------------------------------------- dates

  /** "Issued Jan 2022 · Expires Mar 2024" gives both dates and the expiry flag. */
  lemma DatesJan2022Mar2024()
    ensures FmtDates("Issued Jan 2022 \U{b7} Expires Mar 2024")
            == Ok(DateRange(true, "01012022", Some("03012024")))
  {
    DatesWithExpiry("Jan", "2022", "Expires", "Mar", "2024");
    JanMarLine();
  }

  lemma JanMarLine()
    ensures IssueClause("Jan", "2022") + (" " + ([MiddleDot] + (" " + ExpiryClause("Expires", "Mar", "2024"))))
            == "Issued Jan 2022 \U{b7} Expires Mar 2024"
    ensures Months["Jan"] + "01" + "2022" == "01012022" && Months["Mar"] + "01" + "2024" == "03012024"
  {
  }

  /** "Issued Jun 2021" gives the issue date, no flag and no expiry. */
  lemma DatesJun2021()
    ensures FmtDates("Issued Jun 2021") == Ok(DateRange(false, "06012021", None))
  {
    DatesIssueOnly("Jun", "2021");
    JunLine();
  }

  lemma JunLine()
    ensures IssueClause("Jun", "2021") == "Issued Jun 2021"
    ensures Months["Jun"] + "01" + "2021" == "06012021"
  {
  }

  /** A month outside the table fails the conversion on that token. */
  lemma DatesJanuary()
    ensures FmtDates("Issued January 2022") == Err(UnknownMonth("January"))
  {
    JanuaryShape();
    DatesUnknownMonth("January", "2022");
  }

  lemma JanuaryShape()
    ensures IssueClause("January", "2022") == "Issued January 2022"
    ensures "January" !in Months && NoSpace("January") && MiddleDot !in "January" && 'I' !in "January"
  {
  }

  // ---------------------------------------------------------------- links

  /** The scheme of the examples below. */
  lemma Https(s: string)
    requires s == "https"
    ensures UrlParse.IsScheme(s) && UrlParse.Lower(s) == s && s in UrlParse.UsesNetloc
  {
    assert UrlParse.IsLower(s);
  }

  /** A trimmed link in which the token cannot start is its own cleaning. */
  lemma CleanedKeeps(t: string)
    requires Trimmed(t) && 'l' !in t
    ensures Cleaned(t) == t
  {
    ReplaceAbsent(t, TrackingToken, "");
  }

  /** A trimmed link whose only 'l' starts a tail too short for the token is its
      own cleaning. */
  lemma CleanedKeepsShort(a: string, b: string)
    requires Trimmed(a + b) && 'l' !in a && |b| < |TrackingToken|
    ensures Cleaned(a + b) == a + b
  {
    ReplaceSkip(a, b, TrackingToken, "");
    ReplaceShort(b, TrackingToken, "");
  }

  // The examples below are each split into a lemma over symbolic text, a lemma
  // with the literal facts, and the example itself, which combines the two.

  /** The query carrying the tracking parameter is dropped with the rest of the query. */
  lemma UrlExample()
    ensures FmtUrl("https://example.com/cert?linked_in_profile=abc&x=1") == Ok("https://example.com/cert")
  {
    ExampleFacts("https", "example.com", "/cert", "?linked_in_profile=abc&x=1");
    ExampleLink("https://example.com/cert", "?linked_in_profile=abc&x=1");
    ExampleCleaned("https://example.com/cert");
    QueryDropped("https", "example.com", "/cert", "?linked_in_profile=abc&x=1", "https://example.com/cert");
  }

  /** A scheme, a non-empty balanced netloc and a rooted path, followed by a
      query: the cleaned link is the cleaned text before the query. */
  lemma QueryDropped(s: string, n: string, p: string, query: string, out: string)
    requires UrlParse.IsScheme(s) && UrlParse.Lower(s) == s
    requires n != [] && UrlParse.Avoids(n, "/?#") && UrlParse.NoBreaks(n) && UrlParse.BracketsBalanced(n)
    requires (p == [] || p[0] == '/') && UrlParse.Avoids(p, "?#") && UrlParse.NoBreaks(p)
    requires query != [] && query[0] == '?'
    requires Cleaned(s + "://" + n + p) == out
    ensures FmtUrl(s + "://" + n + p + query) == Ok(out)
  {
    var head := s + "://" + n + p;
    HeadFree(s, n, p);
    UrlIgnoresQuery(head, query);
    UrlKeepsNetloc(s, n, p);
  }

  /** A scheme, "://", a netloc and a path, none holding '?' or '#', hold none together. */
  lemma HeadFree(s: string, n: string, p: string)
    requires UrlParse.IsScheme(s) && UrlParse.Avoids(n, "/?#") && UrlParse.Avoids(p, "?#")
    ensures '?' !in s + "://" + n + p && '#' !in s + "://" + n + p
  {
    UrlParse.SchemeChars(s);
    assert '?' !in n && '#' !in n && '?' !in p && '#' !in p;
  }

  lemma ExampleFacts(s: string, n: string, p: string, query: string)
    requires s == "https" && n == "example.com" && p == "/cert" && query == "?linked_in_profile=abc&x=1"
    ensures UrlParse.IsScheme(s) && UrlParse.Lower(s) == s
    ensures n != [] && UrlParse.Avoids(n, "/?#") && UrlParse.NoBreaks(n) && UrlParse.BracketsBalanced(n)
    ensures (p == [] || p[0] == '/') && UrlParse.Avoids(p, "?#") && UrlParse.NoBreaks(p)
    ensures query != [] && query[0] == '?'
    ensures s + "://" + n + p == "https://example.com/cert"
  {
    Https(s);
    ExampleNetloc(n);
    ExamplePath(p);
    ExampleHead(s, n, p);
  }

  lemma ExampleNetloc(n: string)
    requires n == "example.com"
    ensures n != [] && UrlParse.Avoids(n, "/?#") && UrlParse.NoBreaks(n) && UrlParse.BracketsBalanced(n)
  {
  }

  lemma ExamplePath(p: string)
    requires p == "/cert"
    ensures (p == [] || p[0] == '/') && UrlParse.Avoids(p, "?#") && UrlParse.NoBreaks(p)
  {
  }

  lemma ExampleHead(s: string, n: string, p: string)
    requires s == "https" && n == "example.com" && p == "/cert"
    ensures s + "://" + n + p == "https://example.com/cert"
  {
  }

  lemma ExampleLink(h: string, query: string)
    requires h == "https://example.com/cert" && query == "?linked_in_profile=abc&x=1"
    ensures h + query == "https://example.com/cert?linked_in_profile=abc&x=1"
  {
  }

  lemma ExampleCleaned(t: string)
    requires t == "https://example.com/cert"
    ensures Cleaned(t) == t
  {
    assert t == "https://examp" + "le.com/cert";
    CleanedKeepsShort("https://examp", "le.com/cert");
  }

  /** A link with a scheme but no "//" gains an empty netloc. */
  lemma UrlAddsExample()
    ensures FmtUrl("https:example.com/cert") == Ok("https:///example.com/cert")
  {
    AddsFacts("https", "example.com/cert");
    AddsCleaned("https:///example.com/cert");
    NetlocAdded("https", "example.com/cert", "https:///example.com/cert");
  }

  /** A scheme written with "//" and a path not starting "//": the cleaned
      link is the cleaned scheme, "//" and rooted path. */
  lemma NetlocAdded(s: string, p: string, out: string)
    requires UrlParse.IsScheme(s) && UrlParse.Lower(s) == s && s in UrlParse.UsesNetloc
    requires !UrlParse.DoubleSlash(p) && UrlParse.Avoids(p, "?#") && UrlParse.NoBreaks(p)
    requires Cleaned(s + "://" + UrlParse.Rooted(p)) == out
    ensures FmtUrl(s + ":" + p) == Ok(out)
  {
    UrlAddsNetloc(s, p);
  }

  lemma AddsFacts(s: string, p: string)
    requires s == "https" && p == "example.com/cert"
    ensures UrlParse.IsScheme(s) && UrlParse.Lower(s) == s && s in UrlParse.UsesNetloc
    ensures !UrlParse.DoubleSlash(p) && UrlParse.Avoids(p, "?#") && UrlParse.NoBreaks(p)
    ensures s + ":" + p == "https:example.com/cert"
    ensures s + "://" + UrlParse.Rooted(p) == "https:///example.com/cert"
  {
    Https(s);
    RootedFacts(p);
  }

  lemma RootedFacts(p: string)
    requires p == "example.com/cert"
    ensures !UrlParse.DoubleSlash(p) && UrlParse.Avoids(p, "?#") && UrlParse.NoBreaks(p)
    ensures UrlParse.Rooted(p) == "/" + p
  {
  }

  lemma AddsCleaned(t: string)
    requires t == "https:///example.com/cert"
    ensures Cleaned(t) == t
  {
    assert t == "https:///examp" + "le.com/cert";
    CleanedKeepsShort("https:///examp", "le.com/cert");
  }

  /** An empty netloc after a scheme without "//" in urlunsplit is lost. */
  lemma UrlDropsExample()
    ensures FmtUrl("foo:///x") == Ok("foo:/x")
  {
    DropsFacts("foo", "/x");
    CleanedKeeps("foo:/x");
    NetlocDropped("foo", "/x", "foo:/x");
  }

  /** An empty netloc that urlunsplit does not write back: the cleaned link is
      the cleaned scheme, ':' and path. */
  lemma NetlocDropped(s: string, p: string, out: string)
    requires UrlParse.IsScheme(s) && UrlParse.Lower(s) == s
    requires s !in UrlParse.UsesNetloc || UrlParse.DoubleSlash(p)
    requires (p == [] || p[0] == '/') && UrlParse.Avoids(p, "?#") && UrlParse.NoBreaks(p)
    requires Cleaned(s + ":" + p) == out
    ensures FmtUrl(s + "://" + p) == Ok(out)
  {
    UrlDropsNetloc(s, p);
  }

  lemma DropsFacts(s: string, p: string)
    requires s == "foo" && p == "/x"
    ensures UrlParse.IsScheme(s) && UrlParse.Lower(s) == s && s !in UrlParse.UsesNetloc
    ensures (p == [] || p[0] == '/') && UrlParse.Avoids(p, "?#") && UrlParse.NoBreaks(p)
    ensures s + "://" + p == "foo:///x" && s + ":" + p == "foo:/x"
  {
    assert UrlParse.IsLower(s);
  }

  /** An empty netloc before a path starting "//" is lost, and the path's first
      segment becomes the netloc of the cleaned link. */
  lemma UrlShiftsExample()
    ensures FmtUrl("https:////x") == Ok("https://x")
  {
    ShiftsFacts("https", "//x");
    CleanedKeeps("https://x");
    NetlocDropped("https", "//x", "https://x");
  }

  lemma ShiftsFacts(s: string, p: string)
    requires s == "https" && p == "//x"
    ensures UrlParse.IsScheme(s) && UrlParse.Lower(s) == s && UrlParse.DoubleSlash(p)
    ensures (p == [] || p[0] == '/') && UrlParse.Avoids(p, "?#") && UrlParse.NoBreaks(p)
    ensures s + "://" + p == "https:////x" && s + ":" + p == "https://x"
  {
    Https(s);
  }

  /** Without a scheme an empty netloc is lost. */
  lemma UrlNoSchemeExample()
    ensures FmtUrl("///x") == Ok("/x")
  {
    NoSchemeFacts("///x", "/x");
    CleanedKeeps("/x");
    NoSchemeCase("///x", "/x", "/x");
  }

  lemma NoSchemeFacts(u: string, p: string)
    requires u == "///x" && p == "/x"
    ensures p != [] && p[0] == '/' && UrlParse.Avoids(p, "?#") && UrlParse.NoBreaks(p)
    ensures u == "//" + [] + p
  {
  }

  /** "//" and a rooted path: the empty netloc is lost. */
  lemma NoSchemeCase(u: string, p: string, out: string)
    requires p != [] && p[0] == '/' && UrlParse.Avoids(p, "?#") && UrlParse.NoBreaks(p)
    requires u == "//" + [] + p && Cleaned(p) == out
    ensures FmtUrl(u) == Ok(out)
  {
    UrlWithoutScheme([], p);
  }

  /** A netloc with an opening bracket and no closing one makes urlsplit raise. */
  lemma UrlBracketExample()
    ensures FmtUrl("https://[::1/cert") == Err(UrlParse.InvalidIPv6("[::1"))
  {
    BracketFacts("https", "[::1", "/cert");
    BracketRefused("https", "[::1", "/cert");
  }

  /** A netloc with one kind of bracket only is refused with that netloc. */
  lemma BracketRefused(s: string, n: string, p: string)
    requires UrlParse.IsScheme(s) && UrlParse.Lower(s) == s
    requires n != [] && UrlParse.Avoids(n, "/?#") && UrlParse.NoBreaks(n) && !UrlParse.BracketsBalanced(n)
    requires (p == [] || p[0] == '/') && UrlParse.Avoids(p, "?#") && UrlParse.NoBreaks(p)
    ensures FmtUrl(s + "://" + n + p) == Err(UrlParse.InvalidIPv6(n))
  {
    UrlKeepsNetloc(s, n, p);
  }

  lemma BracketFacts(s: string, n: string, p: string)
    requires s == "https" && n == "[::1" && p == "/cert"
    ensures UrlParse.IsScheme(s) && UrlParse.Lower(s) == s
    ensures n != [] && UrlParse.Avoids(n, "/?#") && UrlParse.NoBreaks(n) && !UrlParse.BracketsBalanced(n)
    ensures (p == [] || p[0] == '/') && UrlParse.Avoids(p, "?#") && UrlParse.NoBreaks(p)
    ensures s + "://" + n + p == "https://[::1/cert"
  {
    Https(s);
  }

  /** bsc_fmt_url is not idempotent either: deleting the token from
      "linked_linked_in_profilein_profile" joins a new token, which a second
      cleaning deletes. */
  lemma UrlNotIdempotent()
    ensures FmtUrl("linked_linked_in_profilein_profile") == Ok(TrackingToken)
    ensures FmtUrl(TrackingToken) == Ok("")
  {
    TokenPieces();
    TokenTwice(TrackingToken);
    TokenAlone(TrackingToken);
  }

  lemma TokenPieces()
    ensures "linked_linked_in_profilein_profile" == "linked_" + (TrackingToken + "in_profile")
  {
  }

  lemma TokenTwice(t: string)
    requires t == TrackingToken
    ensures FmtUrl("linked_" + (t + "in_profile")) == Ok(t)
  {
    var u := "linked_" + (t + "in_profile");
    TokenShape(t);
    UrlPlain(u);
    TokenInside(t);
  }

  lemma TokenShape(t: string)
    requires t == TrackingToken
    ensures var u := "linked_" + (t + "in_profile");
            ':' !in u && '?' !in u && '#' !in u && !UrlParse.DoubleSlash(u) && UrlParse.Clean(u)
            && u[0] == 'l' && u[1..] == "inked_" + (t + "in_profile")
            && u[..17][7] != t[7] && |u| >= 17
            && "l" + ("inked_" + ("" + "in_profile")) == t && Trimmed(t)
  {
    TokenChars(t);
    TokenHead(t);
    TokenRest(t);
  }

  lemma TokenChars(t: string)
    requires t == TrackingToken
    ensures var u := "linked_" + (t + "in_profile");
            ':' !in u && '?' !in u && '#' !in u && !UrlParse.DoubleSlash(u) && UrlParse.Clean(u)
  {
    TokenText("linked_" + (t + "in_profile"));
  }

  /** Text made of lower-case letters and '_' only. */
  predicate Word(s: string) {
    forall i :: 0 <= i < |s| ==> 'a' <= s[i] <= 'z' || s[i] == '_'
  }

  lemma WordJoin(a: string, b: string)
    requires Word(a) && Word(b)
    ensures Word(a + b)
  {
    forall i | 0 <= i < |a + b|
      ensures 'a' <= (a + b)[i] <= 'z' || (a + b)[i] == '_'
    {
      if i >= |a| {
        assert (a + b)[i] == b[i - |a|];
      }
    }
  }

  /** A word holds no URL delimiter, no line break and no leading control. */
  lemma WordChars(u: string)
    requires Word(u)
    ensures ':' !in u && '?' !in u && '#' !in u && !UrlParse.DoubleSlash(u) && UrlParse.Clean(u)
  {
  }

  lemma TokenText(u: string)
    requires u == "linked_" + (TrackingToken + "in_profile")
    ensures ':' !in u && '?' !in u && '#' !in u && !UrlParse.DoubleSlash(u) && UrlParse.Clean(u)
  {
    var a, b: string := "linked_", "in_profile";
    assert Word(a) && Word(b) && Word(TrackingToken);
    WordJoin(TrackingToken, b);
    WordJoin(a, TrackingToken + b);
    WordChars(u);
  }

  lemma TokenHead(t: string)
    requires t == TrackingToken
    ensures var u := "linked_" + (t + "in_profile");
            u[0] == 'l' && u[1..] == "inked_" + (t + "in_profile") && u[..17][7] != t[7] && |u| >= 17
  {
  }

  lemma TokenRest(t: string)
    requires t == TrackingToken
    ensures "l" + ("inked_" + ("" + "in_profile")) == t && Trimmed(t)
  {
  }

  lemma TokenInside(t: string)
    requires t == TrackingToken
    ensures Strip(Replace("linked_" + (t + "in_profile"), TrackingToken, "")) == t
  {
    var u := "linked_" + (t + "in_profile");
    TokenShape(t);
    assert u == ['l'] + u[1..];
    ReplaceMiss('l', u[1..], t, "");
    ReplaceSkip("inked_", t + "in_profile", t, "");
    ReplaceHit("in_profile", t, "");
    ReplaceShort("in_profile", t, "");
  }

  lemma TokenAlone(t: string)
    requires t == TrackingToken
    ensures FmtUrl(t) == Ok("")
  {
    TokenAloneShape(t);
    UrlPlain(t);
    ReplaceHit([], t, "");
    assert t + [] == t;
  }

  lemma TokenAloneShape(t: string)
    requires t == TrackingToken
    ensures ':' !in t && '?' !in t && '#' !in t && !UrlParse.DoubleSlash(t) && UrlParse.Clean(t)
  {
  }
}
