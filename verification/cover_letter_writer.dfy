/** The text side of src/cover_letter_writer.py: `escape_latex`, the
    `LetterWriter` layout pieces and the input guards of the two
    generators. The LLM behind the generators is a parameter, and so are
    the clock readings (the date line and the filename timestamp). */
module CoverLetterWriter {
  import opened Wrappers
  import opened Seqs
  import opened Text
  import opened Store
  import UserData
  import JobsDb

  /* ---- escape_latex ---- */

  /** The replacement table of `escape_latex`, in its iteration order. */
  const Replacements: seq<(char, string)> := [
    ('&', "\\&"), ('%', "\\%"), ('$', "\\$"), ('#', "\\#"), ('_', "\\_"),
    ('{', "\\{"), ('}', "\\}"), ('~', "\\textasciitilde{}"), ('^', "\\textasciicircum{}")]

  /** `text.replace(char, replacement)` for each entry in turn. */
  function ReplaceEach(s: string, reps: seq<(char, string)>): string
    decreases |reps|
  {
    if reps == [] then s else ReplaceEach(ReplaceChar(s, reps[0].0, reps[0].1), reps[1..])
  }

  /** `escape_latex`. */
  function EscapeLatex(text: string): string {
    ReplaceEach(text, Replacements)
  }

  /** What `escape_latex` does to one character: the seven specials get a
      backslash, tilde and caret become their text commands, everything
      else (backslash included) stays. */
  function EscapeChar(c: char): string {
    if c == '~' then "\\textasciitilde{}"
    else if c == '^' then "\\textasciicircum{}"
    else if c in "&%$#_{}" then ['\\', c]
    else [c]
  }

  /** The per-character reading of escaping. */
  function EscapeEach(s: string): string {
    if s == [] then [] else EscapeChar(s[0]) + EscapeEach(s[1..])
  }

  /** No replacement introduces a character a later entry replaces. */
  predicate NoRescan(reps: seq<(char, string)>) {
    forall k, j :: 0 <= k < j < |reps| ==> reps[j].0 !in reps[k].1
  }

  /** In particular the braces the tilde and caret commands bring in come
      after the brace entries, so they are never escaped again. */
  lemma ReplacementsNoRescan()
    ensures NoRescan(Replacements)
  {
  }

  lemma {:induction false} ReplaceEachAppend(a: string, b: string, reps: seq<(char, string)>)
    ensures ReplaceEach(a + b, reps) == ReplaceEach(a, reps) + ReplaceEach(b, reps)
    decreases |reps|
  {
    if reps != [] {
      ReplaceCharAppend(a, b, reps[0].0, reps[0].1);
      ReplaceEachAppend(ReplaceChar(a, reps[0].0, reps[0].1), ReplaceChar(b, reps[0].0, reps[0].1), reps[1..]);
    }
  }

  lemma {:induction false} ReplaceEachUntouched(s: string, reps: seq<(char, string)>)
    requires forall j :: 0 <= j < |reps| ==> reps[j].0 !in s
    ensures ReplaceEach(s, reps) == s
    decreases |reps|
  {
    if reps != [] {
      ReplaceCharAbsent(s, reps[0].0, reps[0].1);
      ReplaceEachUntouched(s, reps[1..]);
    }
  }

  /** A character replaced by the `k`-th entry ends up as that entry's
      replacement, provided no earlier entry touches it and no later entry
      touches a replacement. */
  lemma {:induction false} ReplaceEachHit(c: char, reps: seq<(char, string)>, k: nat)
    requires k < |reps| && reps[k].0 == c
    requires forall j :: 0 <= j < k ==> reps[j].0 != c
    requires NoRescan(reps)
    ensures ReplaceEach([c], reps) == reps[k].1
    decreases k
  {
    ReplaceCharSingle(c, reps[0].0, reps[0].1);
    var rest := reps[1..];
    if k == 0 {
      assert forall j :: 0 <= j < |rest| ==> rest[j].0 !in reps[0].1 by {
        forall j | 0 <= j < |rest|
          ensures rest[j].0 !in reps[0].1
        {
          assert rest[j] == reps[j + 1];
        }
      }
      ReplaceEachUntouched(reps[0].1, rest);
    } else {
      assert NoRescan(rest) by {
        forall k1, j1 | 0 <= k1 < j1 < |rest|
          ensures rest[j1].0 !in rest[k1].1
        {
          assert rest[j1] == reps[j1 + 1] && rest[k1] == reps[k1 + 1];
        }
      }
      ReplaceEachHit(c, rest, k - 1);
    }
  }

  lemma EscapeOne(c: char)
    ensures EscapeLatex([c]) == EscapeChar(c)
  {
    if c in "&%$#_{}~^" {
      EscapeSpecial(c);
    } else {
      ReplaceEachUntouched([c], Replacements);
    }
  }

  lemma EscapeSpecial(c: char)
    requires c in "&%$#_{}~^"
    ensures EscapeLatex([c]) == EscapeChar(c)
  {
    TableCovers(c);
    var k :| 0 <= k < |Replacements| && Replacements[k].0 == c;
    EscapeEntry(k);
  }

  /** Every special character has an entry. */
  lemma TableCovers(c: char)
    requires c in "&%$#_{}~^"
    ensures exists k :: 0 <= k < |Replacements| && Replacements[k].0 == c
  {
    var r := Replacements;
    var specials := "&%$#_{}~^";
    assert forall i :: 0 <= i < 9 ==> r[i].0 == specials[i];
    var i :| 0 <= i < |specials| && specials[i] == c;
    assert r[i].0 == c;
  }

  /** The table's characters are distinct. */
  lemma TableDistinct()
    ensures forall j, k :: 0 <= j < k < |Replacements| ==> Replacements[j].0 != Replacements[k].0
  {
  }

  /** Each entry's replacement is what `EscapeChar` gives its character. */
  lemma TableAgrees()
    ensures forall k :: 0 <= k < |Replacements| ==> Replacements[k].1 == EscapeChar(Replacements[k].0)
  {
  }

  lemma EscapeEntry(k: nat)
    requires k < |Replacements|
    ensures EscapeLatex([Replacements[k].0]) == EscapeChar(Replacements[k].0)
  {
    ReplacementsNoRescan();
    TableDistinct();
    TableAgrees();
    ReplaceEachHit(Replacements[k].0, Replacements, k);
  }

  /** `escape_latex` is the per-character map. */
  lemma {:induction false} EscapeLatexPerChar(text: string)
    ensures EscapeLatex(text) == EscapeEach(text)
  {
    if text != [] {
      assert text == [text[0]] + text[1..];
      ReplaceEachAppend([text[0]], text[1..], Replacements);
      EscapeOne(text[0]);
      EscapeLatexPerChar(text[1..]);
    }
  }

  /** Text without special characters is left alone. */
  lemma {:induction false} EscapePlain(text: string)
    requires forall i :: 0 <= i < |text| ==> text[i] !in "&%$#_{}~^"
    ensures EscapeLatex(text) == text
  {
    EscapeLatexPerChar(text);
    EscapeEachPlain(text);
  }

  lemma {:induction false} EscapeEachPlain(text: string)
    requires forall i :: 0 <= i < |text| ==> text[i] !in "&%$#_{}~^"
    ensures EscapeEach(text) == text
  {
    if text != [] {
      EscapeEachPlain(text[1..]);
    }
  }

  /* ---- the header name ---- */

  /** `full_name_for_header`: the name alone without credentials, else
      the name and the credentials joined by ", ". */
  function FullNameForHeader(name: string, credentials: seq<string>): (r: string)
    ensures r == Join(", ", [name] + credentials)
  {
    var l := [name] + credentials;
    if credentials == [] then name
    else
      assert l[1..] == credentials;
      name + ", " + Join(", ", credentials)
  }

  /** It is the user's `name_with_credentials`. */
  lemma HeaderNameIsNameWithCredentials(u: UserData.User)
    ensures FullNameForHeader(u.name, u.credentials) == UserData.NameWithCredentials(u)
  {
    UserData.NameWithCredentialsJoin(u);
  }

  /** The letterhead name as written: escaped, then uppercased. */
  function HeaderAsWritten(name: string, credentials: seq<string>): string {
    Upper(EscapeLatex(FullNameForHeader(name, credentials)))
  }

  /** Uppercasing after escaping turns `\textasciitilde{}` into the
      undefined command `\TEXTASCIITILDE{}`: the as-written letterhead for
      the name "~" differs from the corrected one already at the command's
      first letter. */
  lemma TildeHeaderBroken()
    ensures Header("~", []) == "\\textasciitilde{}"
    ensures |HeaderAsWritten("~", [])| == |Header("~", [])|
    ensures HeaderAsWritten("~", [])[1] == 'T' && Header("~", [])[1] == 't'
    ensures HeaderAsWritten("~", []) != Header("~", [])
  {
    EscapeOne('~');
    EscapeOne(UpperChar('~'));
    assert Upper("~") == [UpperChar('~')];
    var t := "\\textasciitilde{}";
    assert Upper(t)[1] == UpperChar(t[1]);
  }

  /** The letterhead name uppercased first and then escaped, so every
      LaTeX command it contains is spelled as LaTeX defines it. */
  function Header(name: string, credentials: seq<string>): (r: string)
    ensures r == EscapeEach(Upper(FullNameForHeader(name, credentials)))
  {
    EscapeLatexPerChar(Upper(FullNameForHeader(name, credentials)));
    EscapeLatex(Upper(FullNameForHeader(name, credentials)))
  }

  lemma UpperAppend(a: string, b: string)
    ensures Upper(a + b) == Upper(a) + Upper(b)
  {
  }

  lemma UpperEscapeChar(c: char)
    requires c != '~' && c != '^'
    ensures Upper(EscapeChar(c)) == EscapeChar(UpperChar(c))
  {
    if c in "&%$#_{}" {
      assert Upper(['\\', c]) == ['\\', c];
    } else {
      assert Upper([c]) == [UpperChar(c)];
    }
  }

  lemma {:induction false} UpperEscapeCommute(s: string)
    requires forall i :: 0 <= i < |s| ==> s[i] != '~' && s[i] != '^'
    ensures Upper(EscapeEach(s)) == EscapeEach(Upper(s))
  {
    if s != [] {
      UpperEscapeCommute(s[1..]);
      UpperAppend(EscapeChar(s[0]), EscapeEach(s[1..]));
      UpperEscapeChar(s[0]);
      assert Upper(s)[1..] == Upper(s[1..]);
    }
  }

  /** Without a tilde or a caret the two orders agree. */
  lemma HeaderAgrees(name: string, credentials: seq<string>)
    requires var f := FullNameForHeader(name, credentials);
             forall i :: 0 <= i < |f| ==> f[i] != '~' && f[i] != '^'
    ensures HeaderAsWritten(name, credentials) == Header(name, credentials)
  {
    var f := FullNameForHeader(name, credentials);
    EscapeLatexPerChar(f);
    UpperEscapeCommute(f);
  }

  /* ---- LetterWriter ---- */

  /** The fields a `LetterWriter` holds once constructed. */
  datatype Letter = Letter(
    company: string,
    title: string,
    body: string,
    userName: string,
    email: string,
    linkedinExt: string,
    credentials: seq<string>,
    website: Option<string>,
    addressee: string,
    signOff: string,
    filename: string)

  /** `LetterWriter.__init__`: a named addressee is written to "sincerely",
      a missing or empty one becomes "hiring team", written to
      "faithfully". A missing credentials list is the empty one. */
  function NewLetter(
    company: string, title: string, body: string, userName: string, email: string, linkedinExt: string,
    credentials: seq<string>, website: Option<string>, addressee: Option<string>, timestamp: string): (w: Letter)
    ensures addressee.Some? && addressee.value != "" ==> w.addressee == addressee.value && w.signOff == "sincerely"
    ensures addressee.None? || addressee.value == "" ==> w.addressee == "hiring team" && w.signOff == "faithfully"
    ensures w.filename == MakeFilename(company, userName, timestamp)
    ensures w.company == company && w.title == title && w.body == body && w.userName == userName
  {
    var named := addressee.Some? && addressee.value != "";
    Letter(company, title, body, userName, email, linkedinExt, credentials, website,
           if named then addressee.value else "hiring team",
           if named then "sincerely" else "faithfully",
           MakeFilename(company, userName, timestamp))
  }

  /** The PDF's salutation and closing agree with the plain-text letter
      `cover_letter_full_text` writes for the same addressee. */
  lemma SalutationAgrees(w: Letter, addressee: Option<string>, timestamp: string)
    requires w == NewLetter(w.company, w.title, w.body, w.userName, w.email, w.linkedinExt,
                            w.credentials, w.website, addressee, timestamp)
    ensures "Dear " + w.addressee + "," == JobsDb.Salutation(addressee)
    ensures "Yours " + w.signOff + "," == JobsDb.SignOff(addressee)
  {
  }

  /** A character `re.sub(r"\W+", "", ...)` keeps: ASCII letters, digits
      and underscore; other characters above ASCII count as word
      characters too. */
  predicate WordChar(c: char) {
    IsUpper(c) || IsLower(c) || IsDigit(c) || c == '_' || c as int >= 128
  }

  function WordOnly(s: string): (r: string)
    ensures forall i :: 0 <= i < |r| ==> WordChar(r[i])
    ensures |r| <= |s|
  {
    if s == [] then [] else (if WordChar(s[0]) then [s[0]] else []) + WordOnly(s[1..])
  }

  /** The company with spaces, slashes and backslashes made underscores. */
  function SafeCompany(company: string): string {
    ReplaceChar(ReplaceChar(ReplaceChar(company, ' ', "_"), '/', "_"), '\\', "_")
  }

  /** `make_filename`. */
  function MakeFilename(company: string, userName: string, timestamp: string): string {
    SafeCompany(company) + "_" + WordOnly(userName) + "_CoverLetter_" + timestamp
  }

  /** Replacing a character by an underscore keeps the length and changes
      only that character. */
  lemma {:induction false} ReplaceUnderscore(s: string, c: char)
    ensures |ReplaceChar(s, c, "_")| == |s|
    ensures forall i :: 0 <= i < |s| ==> ReplaceChar(s, c, "_")[i] == (if s[i] == c then '_' else s[i])
  {
    if s != [] {
      ReplaceUnderscore(s[1..], c);
    }
  }

  /** The sanitised company has the company's length, with exactly the
      three separator characters turned into underscores. */
  lemma SafeCompanySpec(company: string)
    ensures |SafeCompany(company)| == |company|
    ensures forall i :: 0 <= i < |company| ==>
      SafeCompany(company)[i] == (if company[i] in " /\\" then '_' else company[i])
  {
    var a := ReplaceChar(company, ' ', "_");
    var b := ReplaceChar(a, '/', "_");
    ReplaceUnderscore(company, ' ');
    ReplaceUnderscore(a, '/');
    ReplaceUnderscore(b, '\\');
  }

  /** With a numeric timestamp the filename holds no space, slash or
      backslash. */
  lemma FilenameSafe(company: string, userName: string, timestamp: string)
    requires forall i :: 0 <= i < |timestamp| ==> IsDigit(timestamp[i])
    ensures forall c :: c in MakeFilename(company, userName, timestamp) ==> c != ' ' && c != '/' && c != '\\'
  {
    SafeCompanySpec(company);
    var n := WordOnly(userName);
    assert forall i :: 0 <= i < |n| ==> WordChar(n[i]);
  }

  /* ---- contact_info ---- */

  /** `\href{target}{label}`. */
  function Href(target: string, text: string): string {
    "\\href{" + target + "}{" + text + "}"
  }

  /** `re.sub(r"https?://", "", s)`: every scheme marker removed, left to
      right, scanning on after each removal. */
  function StripScheme(s: string): (r: string)
    ensures |r| <= |s|
    decreases |s|
  {
    if |s| >= 8 && s[..8] == "https://" then StripScheme(s[8..])
    else if |s| >= 7 && s[..7] == "http://" then StripScheme(s[7..])
    else if s == [] then []
    else [s[0]] + StripScheme(s[1..])
  }

  /** No scheme marker starts anywhere in `s`. */
  predicate NoScheme(s: string) {
    forall i :: 0 <= i <= |s| ==> !OccursAt(s, "http://", i) && !OccursAt(s, "https://", i)
  }

  lemma {:induction false} StripSchemeNone(s: string)
    requires NoScheme(s)
    ensures StripScheme(s) == s
    decreases |s|
  {
    if s != [] {
      assert !OccursAt(s, "http://", 0) && !OccursAt(s, "https://", 0);
      var t := s[1..];
      forall i | 0 <= i <= |t|
        ensures !OccursAt(t, "http://", i) && !OccursAt(t, "https://", i)
      {
        assert !OccursAt(s, "http://", i + 1) && !OccursAt(s, "https://", i + 1);
        if i + 7 <= |t| {
          assert t[i..i + 7] == s[i + 1..i + 8];
        }
        if i + 8 <= |t| {
          assert t[i..i + 8] == s[i + 1..i + 9];
        }
      }
      StripSchemeNone(t);
    }
  }

  /** The website label is the address without its scheme. */
  lemma WebsiteLabel(rest: string)
    requires NoScheme(rest)
    ensures StripScheme("https://" + rest) == rest
    ensures StripScheme("http://" + rest) == rest
  {
    var a := "https://" + rest;
    assert a[..8] == "https://" && a[8..] == rest;
    var b := "http://" + rest;
    assert b[..7] == "http://" && b[7..] == rest;
    assert |b| < 8 || b[..8] != "https://" by {
      if |b| >= 8 {
        assert b[4] == ':';
      }
    }
    StripSchemeNone(rest);
  }

  /** The separator between contact items. */
  const Bar := " \\textbar{} "

  function EmailLink(email: string): string {
    Href("mailto:" + email, email)
  }

  function LinkedinLink(ext: string): string {
    Href("https://linkedin.com/in/" + ext, "in/" + ext)
  }

  function WebsiteLink(website: string): string {
    Href(website, StripScheme(website))
  }

  /** The links `contact_info` shows, in order: email, website (left out
      when missing or empty) and LinkedIn. */
  function ContactItems(w: Letter): (r: seq<string>)
    ensures |r| == (if w.website.Some? && w.website.value != "" then 3 else 2)
    ensures r[0] == EmailLink(w.email) && r[|r| - 1] == LinkedinLink(w.linkedinExt)
    ensures |r| == 3 ==> r[1] == WebsiteLink(w.website.value)
  {
    if w.website.Some? && w.website.value != "" then [EmailLink(w.email), WebsiteLink(w.website.value), LinkedinLink(w.linkedinExt)]
    else [EmailLink(w.email), LinkedinLink(w.linkedinExt)]
  }

  /** `contact_info`: the links joined by a bar. */
  function ContactInfo(w: Letter): string {
    Join(Bar, ContactItems(w))
  }

  /** The contact line spelled out. */
  lemma ContactInfoForm(w: Letter)
    ensures w.website.Some? && w.website.value != "" ==>
      ContactInfo(w) == EmailLink(w.email) + (Bar + (WebsiteLink(w.website.value) + (Bar + LinkedinLink(w.linkedinExt))))
    ensures w.website.None? || w.website.value == "" ==>
      ContactInfo(w) == EmailLink(w.email) + (Bar + LinkedinLink(w.linkedinExt))
  {
    var items := ContactItems(w);
    assert items[1..][1..] == items[2..];
    if |items| == 3 {
      assert Join(Bar, items[1..]) == items[1] + (Bar + items[2]);
    } else {
      assert Join(Bar, items[1..]) == items[1];
    }
  }

  /* ---- latex_source_cover_letter ---- */

  /** The fixed text of the LaTeX template between its placeholders.
      The preamble, up to the letterhead name, is kept line by line. */
  const PreambleLines: seq<string> := [
    "\\documentclass[11pt]{article}\n",
    "\n",
    "\\usepackage[paper=a4paper,\n",
    "            margin=25mm]{geometry}\n",
    "\n",
    "\\usepackage{hyperref}\n",
    "\\usepackage{color}\n",
    "\\definecolor{darkblue}{rgb}{0.0,0.0,0.3}\n",
    "\\hypersetup{colorlinks,breaklinks,\n",
    "            linkcolor=darkblue,urlcolor=darkblue,\n",
    "            anchorcolor=darkblue,citecolor=darkblue}\n",
    "\n",
    "\\setlength{\\parindent}{0pt}\n",
    "\\setlength{\\parskip}{12pt}\n",
    "\n",
    "\\pagestyle{empty}\n",
    "\n",
    "\\begin{document}\n",
    "\n",
    "% Letterhead\n",
    "\\begin{center}\n",
    "{\\Large \\underline{"
  ]

  function Preamble(): string {
    Flatten(PreambleLines)
  }

  const AfterName := "}}\n\n\\vspace{4pt}\n\n"
  const AfterContact := "\n\\end{center}\n\n\\vspace{20pt}\n\n"
  const AfterDate := "\n\n\\vspace{12pt}\n\n% Subject line\n\\textbf{RE: "
  const AfterTitle := " role at "
  const AfterCompany := "}\n\n\\vspace{12pt}\n\n% Salutation\n"
  const BeforeBody := "\n\n% Body\n"
  const AfterBody := "\n\n\\vspace{12pt}\n\n"
  const BeforeSignature := "\n\n\\vspace{24pt}\n\n"
  const Closing := "\n\n\\end{document}\n"

  /** The name the template signs every letter with. */
  const FixedSignature := "Joshua Prettyman"

  /** The letterhead up to the salutation. */
  function Head(header: string, contact: string, date: string, title: string, company: string): string {
    Preamble() + header + (AfterName + contact + AfterContact + date + AfterDate + title + AfterTitle + company + AfterCompany)
  }

  function Dear(addressee: string): string {
    "Dear " + addressee + ","
  }

  function Yours(signOff: string): string {
    "Yours " + signOff + ","
  }

  function Ending(signature: string): string {
    BeforeSignature + signature + Closing
  }

  /** The template with every placeholder filled once. */
  function Source(
    header: string, contact: string, date: string, title: string, company: string,
    addressee: string, body: string, signOff: string, signature: string): string
  {
    Head(header, contact, date, title, company) + Dear(addressee) + BeforeBody + body + AfterBody
    + Yours(signOff) + Ending(signature)
  }

  /** The body: escaped, then each newline doubled into a paragraph
      break. */
  function FormatBody(body: string): string {
    ReplaceChar(EscapeLatex(body), '\n', "\n\n")
  }

  /** What the formatting does to one body character. */
  function BodyChar(c: char): string {
    if c == '\n' then "\n\n" else EscapeChar(c)
  }

  function BodyEach(s: string): string {
    if s == [] then [] else BodyChar(s[0]) + BodyEach(s[1..])
  }

  /** Escaping never makes a newline, so the two steps of `FormatBody` are
      one per-character map: newlines doubled, specials escaped. */
  lemma FormatBodyPerChar(body: string)
    ensures FormatBody(body) == BodyEach(body)
  {
    EscapeLatexPerChar(body);
    NewlinesAfterEscape(body);
  }

  lemma EscapeCharNoNewline(c: char)
    requires c != '\n'
    ensures '\n' !in EscapeChar(c)
  {
  }

  lemma {:induction false} NewlinesAfterEscape(s: string)
    ensures ReplaceChar(EscapeEach(s), '\n', "\n\n") == BodyEach(s)
  {
    if s != [] {
      NewlinesAfterEscape(s[1..]);
      ReplaceCharAppend(EscapeChar(s[0]), EscapeEach(s[1..]), '\n', "\n\n");
      if s[0] == '\n' {
        ReplaceCharSingle('\n', '\n', "\n\n");
      } else {
        EscapeCharNoNewline(s[0]);
        ReplaceCharAbsent(EscapeChar(s[0]), '\n', "\n\n");
      }
    }
  }

  /** Where the salutation, body, closing and signature sit in a letter
      laid out as head, salutation, gap, body, gap, closing, ending. */
  lemma LetterParts(h: string, x: string, d: string, g1: string, b: string, g2: string, y: string, e: string)
    ensures var r := h + d + g1 + b + g2 + y + e;
            && (Contains(h, x) ==> Contains(r, x))
            && Contains(r, d) && Contains(r, b) && Contains(r, y)
            && EndsWith(r, e)
  {
    var r := h + d + g1 + b + g2 + y + e;
    if Contains(h, x) {
      var i :| OccursAt(h, x, i);
      assert r[i..i + |x|] == h[i..i + |x|];
      assert OccursAt(r, x, i);
    }
    assert OccursAt(r, d, |h|);
    assert OccursAt(r, b, |h| + |d| + |g1|);
    assert OccursAt(r, y, |h| + |d| + |g1| + |b| + |g2|);
  }

  /** The letterhead name sits right after the preamble. */
  lemma HeadHolds(p: string, header: string, rest: string)
    ensures Contains(p + header + rest, header)
  {
    assert OccursAt(p + header + rest, header, |p|);
  }

  /** Every filled template holds its letterhead name, salutation, body
      and closing, and ends with the signature block. */
  lemma SourceParts(
    header: string, contact: string, date: string, title: string, company: string,
    addressee: string, body: string, signOff: string, signature: string)
    ensures var r := Source(header, contact, date, title, company, addressee, body, signOff, signature);
            && Contains(r, header) && Contains(r, Dear(addressee)) && Contains(r, body) && Contains(r, Yours(signOff))
            && EndsWith(r, Ending(signature))
  {
    HeadHolds(Preamble(), header, AfterName + contact + AfterContact + date + AfterDate + title + AfterTitle + company + AfterCompany);
    LetterParts(Head(header, contact, date, title, company), header, Dear(addressee), BeforeBody, body, AfterBody,
                Yours(signOff), Ending(signature));
  }

  /** `latex_source_cover_letter` as written: the letterhead name escaped
      then uppercased, and the letter signed with the template's fixed
      name whoever the writer is. */
  function LatexSourceAsWritten(w: Letter, date: string): string {
    Source(HeaderAsWritten(w.userName, w.credentials), ContactInfo(w), date, EscapeLatex(w.title),
           EscapeLatex(w.company), EscapeLatex(w.addressee), FormatBody(w.body), w.signOff, FixedSignature)
  }

  /** The source as written carries the letterhead name, the salutation,
      the formatted body and the closing, and ends with the fixed
      signature. */
  lemma AsWrittenParts(w: Letter, date: string)
    ensures var r := LatexSourceAsWritten(w, date);
            && Contains(r, HeaderAsWritten(w.userName, w.credentials))
            && Contains(r, Dear(EscapeLatex(w.addressee)))
            && Contains(r, FormatBody(w.body))
            && Contains(r, Yours(w.signOff))
  {
    SourceParts(HeaderAsWritten(w.userName, w.credentials), ContactInfo(w), date, EscapeLatex(w.title),
                EscapeLatex(w.company), EscapeLatex(w.addressee), FormatBody(w.body), w.signOff, FixedSignature);
  }

  /** Every letter the template produces is signed with the fixed name,
      whoever writes it. */
  lemma AsWrittenSignsFixedName(w: Letter, date: string)
    ensures EndsWith(LatexSourceAsWritten(w, date), Ending(FixedSignature))
  {
    SourceParts(HeaderAsWritten(w.userName, w.credentials), ContactInfo(w), date, EscapeLatex(w.title),
                EscapeLatex(w.company), EscapeLatex(w.addressee), FormatBody(w.body), w.signOff, FixedSignature);
  }

  /** `latex_source_cover_letter` with the letterhead name uppercased
      before escaping and the letter signed with the writer's own escaped
      name; everything else as written. */
  function LatexSource(w: Letter, date: string): string {
    Source(Header(w.userName, w.credentials), ContactInfo(w), date, EscapeLatex(w.title), EscapeLatex(w.company),
           EscapeLatex(w.addressee), FormatBody(w.body), w.signOff, EscapeLatex(w.userName))
  }

  /** The corrected source carries the letterhead name, the salutation,
      the formatted body and the closing, and ends signed by the writer. */
  lemma LatexSourceParts(w: Letter, date: string)
    ensures var r := LatexSource(w, date);
            && Contains(r, Header(w.userName, w.credentials))
            && Contains(r, Dear(EscapeLatex(w.addressee)))
            && Contains(r, FormatBody(w.body))
            && Contains(r, Yours(w.signOff))
            && EndsWith(r, Ending(EscapeLatex(w.userName)))
  {
    SourceParts(Header(w.userName, w.credentials), ContactInfo(w), date, EscapeLatex(w.title), EscapeLatex(w.company),
                EscapeLatex(w.addressee), FormatBody(w.body), w.signOff, EscapeLatex(w.userName));
  }

  /** The two versions differ only in the letterhead name and the
      signature: where those agree, so do the sources. */
  lemma SignatureIsTheOnlyOtherChange(w: Letter, date: string)
    requires HeaderAsWritten(w.userName, w.credentials) == Header(w.userName, w.credentials)
    requires EscapeLatex(w.userName) == FixedSignature
    ensures LatexSourceAsWritten(w, date) == LatexSource(w, date)
  {
  }

  /** Where `save_pdf` puts a letter: `{output_dir}/{filename}.pdf`. */
  function PdfPath(outputDir: string, filename: string): (r: string)
    ensures |r| == |outputDir| + |filename| + 5
    ensures r[..|outputDir| + 1] == outputDir + "/" && EndsWith(r, filename + ".pdf")
  {
    outputDir + "/" + (filename + ".pdf")
  }

  /** `save_pdf`: the letter's source as written is compiled (a
      parameter) into `{output_dir}/{filename}.pdf`, and that path comes
      back exactly when compiling reports success. */
  function SavePdf(w: Letter, outputDir: string, date: string, compile: (string, string) -> bool): (r: Option<string>)
    ensures r.Some? <==> compile(LatexSourceAsWritten(w, date), PdfPath(outputDir, w.filename))
    ensures r.Some? ==> r.value == PdfPath(outputDir, w.filename)
  {
    var path := PdfPath(outputDir, w.filename);
    if compile(LatexSourceAsWritten(w, date), path) then Some(path) else None
  }

  /** `save_pdf` over the corrected source: same path, same success rule. */
  function SavePdfCorrected(w: Letter, outputDir: string, date: string, compile: (string, string) -> bool): (r: Option<string>)
    ensures r.Some? <==> compile(LatexSource(w, date), PdfPath(outputDir, w.filename))
    ensures r.Some? ==> r.value == PdfPath(outputDir, w.filename)
  {
    var path := PdfPath(outputDir, w.filename);
    if compile(LatexSource(w, date), path) then Some(path) else None
  }

  /* ---- the generators' guards ---- */

  /** `generate_cover_letter_topics`: nothing without a description and a
      background; otherwise whatever the model returns (already parsed,
      `[]` on any failure). */
  function GenerateTopics(description: string, background: string, llm: (string, string) -> seq<TopicDict>): (r: seq<TopicDict>)
    ensures description == "" || background == "" ==> r == []
    ensures description != "" && background != "" ==> r == llm(description, background)
  {
    if description == "" || background == "" then [] else llm(description, background)
  }

  /** `generate_cover_letter_body`: the empty string unless description,
      background and topics are all non-empty; otherwise the model's
      stripped answer (`""` on failure). */
  function GenerateBody(
    title: string, company: string, description: string, background: string, topics: seq<TopicDict>,
    llm: (string, string, string, string, seq<TopicDict>) -> string): (r: string)
    ensures description == "" || background == "" || topics == [] ==> r == ""
    ensures description != "" && background != "" && topics != [] ==> r == llm(title, company, description, background, topics)
  {
    if description == "" || background == "" || topics == [] then ""
    else llm(title, company, description, background, topics)
  }
}
