/**
 * `registerSchema` and `loginSchema` (src/schemas/userSchema.ts), with the e-mail pattern
 * `^[a-zA-Z0-9._%+-]+@[a-zA-Z0-9.-]+\.[a-zA-Z]{2,}$` matched by hand.
 */
module UserSchema {
  import opened Wrappers
  import opened Validation
  import Seqs

  predicate IsLetter(c: char)
  {
    'a' <= c <= 'z' || 'A' <= c <= 'Z'
  }

  predicate IsAlnum(c: char)
  {
    IsLetter(c) || '0' <= c <= '9'
  }

  /** `[a-zA-Z0-9._%+-]`. */
  predicate IsLocalChar(c: char)
  {
    IsAlnum(c) || c == '.' || c == '_' || c == '%' || c == '+' || c == '-'
  }

  /** `[a-zA-Z0-9.-]`. */
  predicate IsDomainChar(c: char)
  {
    IsAlnum(c) || c == '.' || c == '-'
  }

  predicate AllLocal(s: string)
  {
    forall i :: 0 <= i < |s| ==> IsLocalChar(s[i])
  }

  predicate AllDomain(s: string)
  {
    forall i :: 0 <= i < |s| ==> IsDomainChar(s[i])
  }

  predicate AllLetters(s: string)
  {
    forall i :: 0 <= i < |s| ==> IsLetter(s[i])
  }

  /** The pattern matches with the `@` at `at` and the escaped `.` at `dot`. */
  predicate MatchesAt(s: string, at: int, dot: int)
  {
    0 < at && at + 1 < dot && dot + 3 <= |s|
    && s[at] == '@' && s[dot] == '.'
    && AllLocal(s[..at]) && AllDomain(s[at + 1..dot]) && AllLetters(s[dot + 1..])
  }

  /** The whole string matches the pattern. */
  ghost predicate MatchesEmail(s: string)
  {
    exists at, dot :: MatchesAt(s, at, dot)
  }

  /**
   * The matcher: the local part cannot hold `@` and the final letters cannot hold `.`, so
   * the only candidates are the first `@` and the last `.`.
   */
  function IsEmail(s: string): bool
  {
    var at := Seqs.IndexOf(s, '@');
    var dot := Seqs.LastIndexOf(s, '.');
    at != -1 && dot != -1 && MatchesAt(s, at, dot)
  }

  /** The matcher accepts exactly the strings the pattern matches. */
  lemma IsEmailIffMatches(s: string)
    ensures IsEmail(s) <==> MatchesEmail(s)
  {
    if MatchesEmail(s) {
      var at, dot :| MatchesAt(s, at, dot);
      var first := Seqs.IndexOf(s, '@');
      var last := Seqs.LastIndexOf(s, '.');
      assert forall k :: 0 <= k < at ==> s[k] == s[..at][k];
      assert forall k :: dot < k < |s| ==> s[k] == s[dot + 1..][k - dot - 1];
    }
  }

  /** The addresses listed beside the pattern as examples match it. */
  lemma ExampleAddressesMatch()
    ensures MatchesEmail("usuario@dominio.com")
    ensures MatchesEmail("nome.sobrenome@empresa.com.br")
    ensures MatchesEmail("user123@site.org")
  {
    PlainAddressMatches();
    DottedAddressMatches();
    DigitsAddressMatches();
  }

  lemma PlainAddressMatches()
    ensures MatchesAt("usuario@dominio.com", 7, 15)
  {
  }

  lemma DottedAddressMatches()
    ensures MatchesAt("nome.sobrenome@empresa.com.br", 14, 26)
  {
    var s := "nome.sobrenome@empresa.com.br";
    assert s[..14] == "nome.sobrenome" && AllLocal("nome.sobrenome");
    assert s[15..26] == "empresa.com" && AllDomain("empresa.com");
    assert s[27..] == "br" && AllLetters("br");
  }

  lemma DigitsAddressMatches()
    ensures MatchesAt("user123@site.org", 7, 12)
  {
  }

  /** The pattern needs a non-empty local part. */
  lemma NoLocalPart()
    ensures !MatchesEmail("@dominio.com")
  {
    IsEmailIffMatches("@dominio.com");
    assert Seqs.IndexOf("@dominio.com", '@') == 0;
  }

  /** The pattern needs at least two letters after the last dot. */
  lemma OneLetterEnding()
    ensures !MatchesEmail("ana@dominio.c")
  {
    var s := "ana@dominio.c";
    IsEmailIffMatches(s);
    var last := Seqs.LastIndexOf(s, '.');
    assert s[11] == '.';
    assert last >= 11;
  }

  datatype UserType = Aluno | Professor | Admin

  /** The string value of each `UserType` member. */
  function UserTypeValue(t: UserType): string
  {
    match t
    case Aluno => "aluno"
    case Professor => "professor"
    case Admin => "admin"
  }

  /** `z.nativeEnum(UserType)`: the member whose value is `s`, if any. */
  function ParseUserType(s: string): (r: Option<UserType>)
    ensures r.Some? ==> UserTypeValue(r.value) == s
    ensures r.None? ==> forall t :: UserTypeValue(t) != s
  {
    if s == "aluno" then Some(Aluno)
    else if s == "professor" then Some(Professor)
    else if s == "admin" then Some(Admin)
    else None
  }

  lemma ParseUserTypeValue(t: UserType)
    ensures ParseUserType(UserTypeValue(t)) == Some(t)
  {
  }

  /** The value zod reports for an unknown enum value (zod's own wording). */
  function EnumMessage(received: string): string
  {
    "Invalid enum value. Expected 'aluno' | 'professor' | 'admin', received '" + received + "'"
  }

  /** The register form as typed; `userType` may be absent. */
  datatype RegisterInput = RegisterInput(name: string, email: string, password: string, userType: Option<string>)

  /** The parsed register data. */
  datatype RegisterData = RegisterData(name: string, email: string, password: string, userType: UserType)

  /** The issues `registerSchema` reports, in field order; the empty e-mail fails both of its checks. */
  function RegisterIssues(u: RegisterInput): seq<Issue>
  {
    LengthIssues("name", u.name, 3, "Nome deve ter no mínimo 3 caracteres", 100, "Nome deve ter no máximo 100 caracteres")
    + MinLengthIssues("email", u.email, 1, "Email é obrigatório")
    + (if IsEmail(u.email) then [] else [Issue("email", "Formato de email inválido")])
    + LengthIssues("password", u.password, 6, "Senha deve ter no mínimo 6 caracteres", 50, "Senha deve ter no máximo 50 caracteres")
    + (match u.userType
       case None => []
       case Some(t) => if ParseUserType(t).Some? then [] else [Issue("userType", EnumMessage(t))])
  }

  /** `registerSchema.safeParse`: the data with the `userType` default filled in, or the issues. */
  function ParseRegister(u: RegisterInput): (r: Result<RegisterData, seq<Issue>>)
    ensures r.Failure? ==> r.error != []
  {
    var issues := RegisterIssues(u);
    if issues != [] then Failure(issues)
    else
      var t := if u.userType.Some? then ParseUserType(u.userType.value).value else Aluno;
      Success(RegisterData(u.name, u.email, u.password, t))
  }

  /** Registration is accepted iff every field rule holds; an absent type becomes `aluno`. */
  lemma ParseRegisterSpec(u: RegisterInput)
    ensures ParseRegister(u).Success? <==>
      3 <= |u.name| <= 100 && MatchesEmail(u.email) && 6 <= |u.password| <= 50
      && (u.userType.None? || u.userType.value in {"aluno", "professor", "admin"})
    ensures ParseRegister(u).Success? ==>
      var d := ParseRegister(u).value;
      d.name == u.name && d.email == u.email && d.password == u.password
      && UserTypeValue(d.userType) == (if u.userType.Some? then u.userType.value else "aluno")
  {
    IsEmailIffMatches(u.email);
  }

  /** A string that matches the pattern is never empty, so the "required" message only comes with the format one. */
  lemma EmptyEmailBothIssues(u: RegisterInput)
    requires u.email == ""
    ensures Issue("email", "Email é obrigatório") in RegisterIssues(u)
    ensures Issue("email", "Formato de email inválido") in RegisterIssues(u)
  {
  }

  datatype LoginInput = LoginInput(email: string, password: string)

  function LoginIssues(l: LoginInput): seq<Issue>
  {
    MinLengthIssues("email", l.email, 1, "Email é obrigatório")
    + MinLengthIssues("password", l.password, 1, "Senha é obrigatória")
  }

  /** Login only asks for two non-empty fields: no pattern, no length cap. */
  lemma LoginValidIff(l: LoginInput)
    ensures LoginIssues(l) == [] <==> l.email != "" && l.password != ""
  {
  }

  /** Login accepts e-mails and passwords that registration would refuse. */
  lemma LoginLaxerThanRegister()
    ensures LoginIssues(LoginInput("x", "y")) == []
    ensures ParseRegister(RegisterInput("Ana", "x", "y", None)).Failure?
  {
    IsEmailIffMatches("x");
  }
}
