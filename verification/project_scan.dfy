/** What the projects admin route (app/api/admin/projects/route.ts) reads
    from one project folder: its technology stack, the summaries of past
    assistant sessions, the last commit, the README's first paragraph and
    the one-line summary built from them. The file system and `git` are not
    called: their results are parameters (file contents, directory
    listings, command output), and `JSON.parse` of a session-log line is an
    opaque function. */
module ProjectScan {
  import opened Wrappers
  import opened Text
  import opened Seqs
  import opened StringOrder

  /** A parsed `package.json`: the dependency names that have a version
      (dependencies and devDependencies merged) and `description`. */
  datatype PackageJson = Unparsable | Parsed(deps: set<string>, description: Option<string>)

  /** The parts of a project folder the route looks at. `None` means the
      file does not exist; a listing that cannot be read is empty. */
  datatype ProjectFiles = ProjectFiles(
    listing: seq<string>,
    packageJson: Option<PackageJson>,
    requirements: Option<string>,
    hasCargoToml: bool,
    hasGoMod: bool,
    hasPomXml: bool,
    hasBuildGradle: bool,
    prismaSchema: Option<string>)

  /** JavaScript truthiness of an optional string. */
  predicate Truthy(s: Option<string>) { s.Some? && s.value != "" }

  // ---------------------------------------------------------------------
  // detectTechStack
  // ---------------------------------------------------------------------

  /** The technologies the route can report. */
  datatype Tech =
    | NodeJs | Python | Rust | Go | CSharp | DotNet | Java | Maven | Gradle
    | NextJs | React | Vue | Express | TypeScript | Tailwind | Prisma | SocketIO | Electron
    | Flask | Django | FastApi | SqlAlchemy | PyTorch | TensorFlow | OpenAi | Anthropic
    | PostgreSql | MySql | Sqlite

  /** The label the route shows for a technology. */
  function TechName(t: Tech): string {
    match t
    case NodeJs => "Node.js"
    case Python => "Python"
    case Rust => "Rust"
    case Go => "Go"
    case CSharp => "C#"
    case DotNet => ".NET"
    case Java => "Java"
    case Maven => "Maven"
    case Gradle => "Gradle"
    case NextJs => "Next.js"
    case React => "React"
    case Vue => "Vue"
    case Express => "Express"
    case TypeScript => "TypeScript"
    case Tailwind => "Tailwind"
    case Prisma => "Prisma"
    case SocketIO => "Socket.IO"
    case Electron => "Electron"
    case Flask => "Flask"
    case Django => "Django"
    case FastApi => "FastAPI"
    case SqlAlchemy => "SQLAlchemy"
    case PyTorch => "PyTorch"
    case TensorFlow => "TensorFlow"
    case OpenAi => "OpenAI"
    case Anthropic => "Anthropic"
    case PostgreSql => "PostgreSQL"
    case MySql => "MySQL"
    case Sqlite => "SQLite"
  }

  function TechNames(ts: seq<Tech>): (r: seq<string>)
    ensures |r| == |ts| && forall i :: 0 <= i < |ts| ==> r[i] == TechName(ts[i])
  {
    seq(|ts|, i requires 0 <= i < |ts| => TechName(ts[i]))
  }

  function When(c: bool, ts: seq<Tech>): seq<Tech> { if c then ts else [] }

  predicate AnyEndsWith(files: seq<string>, suffix: string) {
    exists i :: 0 <= i < |files| && EndsWith(files[i], suffix)
  }

  /** The config-file checks, in table order. */
  function ConfigTechs(f: ProjectFiles): seq<Tech> {
    ConfigTechsFrom(f.packageJson.Some?, f.requirements.Some?, f.hasCargoToml, f.hasGoMod,
                    AnyEndsWith(f.listing, ".csproj"), AnyEndsWith(f.listing, ".sln"), f.hasPomXml, f.hasBuildGradle)
  }

  /** The config-file table, given which checks pass. */
  function ConfigTechsFrom(pkg: bool, reqs: bool, cargo: bool, goMod: bool, csproj: bool, sln: bool, pom: bool, gradle: bool): seq<Tech> {
    LanguageTechs(pkg, reqs, cargo, goMod) + DotNetTechs(csproj, sln) + JvmTechs(pom, gradle)
  }

  /** The first four rows: one language per marker file. */
  function LanguageTechs(pkg: bool, reqs: bool, cargo: bool, goMod: bool): seq<Tech> {
    When(pkg, [NodeJs]) + When(reqs, [Python]) + When(cargo, [Rust]) + When(goMod, [Go])
  }

  /** The `.csproj` and `.sln` rows. */
  function DotNetTechs(csproj: bool, sln: bool): seq<Tech> {
    When(csproj, [CSharp, DotNet]) + When(sln, [DotNet])
  }

  /** The `pom.xml` and `build.gradle` rows. */
  function JvmTechs(pom: bool, gradle: bool): seq<Tech> {
    When(pom, [Java, Maven]) + When(gradle, [Java, Gradle])
  }

  predicate HasDep(f: ProjectFiles, name: string) {
    f.packageJson.Some? && f.packageJson.value.Parsed? && name in f.packageJson.value.deps
  }

  /** Frameworks read from the dependencies of `package.json`. */
  function PackageTechs(f: ProjectFiles): seq<Tech> {
    PackageTechsFrom(HasDep(f, "next"), HasDep(f, "react"), HasDep(f, "vue"), HasDep(f, "express"),
                     HasDep(f, "typescript"), HasDep(f, "tailwindcss"), HasDep(f, "prisma") || HasDep(f, "@prisma/client"),
                     HasDep(f, "socket.io"), HasDep(f, "electron"))
  }

  /** The dependency table, given which dependencies are present. */
  function PackageTechsFrom(next: bool, react: bool, vue: bool, express: bool, typescript: bool,
                            tailwind: bool, prisma: bool, socketIo: bool, electron: bool): seq<Tech> {
    FrameworkTechs(next, react, vue, express, typescript) + ToolTechs(tailwind, prisma, socketIo, electron)
  }

  /** The first five dependency rows. */
  function FrameworkTechs(next: bool, react: bool, vue: bool, express: bool, typescript: bool): seq<Tech> {
    When(next, [NextJs]) + When(react, [React]) + When(vue, [Vue]) + When(express, [Express]) + When(typescript, [TypeScript])
  }

  /** The last four dependency rows. */
  function ToolTechs(tailwind: bool, prisma: bool, socketIo: bool, electron: bool): seq<Tech> {
    When(tailwind, [Tailwind]) + When(prisma, [Prisma]) + When(socketIo, [SocketIO]) + When(electron, [Electron])
  }

  /** Libraries named anywhere in `requirements.txt` (a plain substring test). */
  function RequirementTechs(reqs: string): seq<Tech> {
    RequirementTechsFrom(Contains(reqs, "flask"), Contains(reqs, "django"), Contains(reqs, "fastapi"),
                         Contains(reqs, "sqlalchemy"), Contains(reqs, "pytorch") || Contains(reqs, "torch"),
                         Contains(reqs, "tensorflow"), Contains(reqs, "openai"), Contains(reqs, "anthropic"))
  }

  /** The requirements table, given which names occur. */
  function RequirementTechsFrom(flask: bool, django: bool, fastApi: bool, sqlAlchemy: bool, torch: bool,
                                tensorFlow: bool, openAi: bool, anthropic: bool): seq<Tech> {
    WebTechs(flask, django, fastApi, sqlAlchemy) + AiTechs(torch, tensorFlow, openAi, anthropic)
  }

  /** The web framework and database rows. */
  function WebTechs(flask: bool, django: bool, fastApi: bool, sqlAlchemy: bool): seq<Tech> {
    When(flask, [Flask]) + When(django, [Django]) + When(fastApi, [FastApi]) + When(sqlAlchemy, [SqlAlchemy])
  }

  /** The machine-learning and AI client rows. */
  function AiTechs(torch: bool, tensorFlow: bool, openAi: bool, anthropic: bool): seq<Tech> {
    When(torch, [PyTorch]) + When(tensorFlow, [TensorFlow]) + When(openAi, [OpenAi]) + When(anthropic, [Anthropic])
  }

  /** `prisma/schema.prisma`: Prisma itself and the database it targets. */
  function SchemaTechs(schema: string): seq<Tech> {
    SchemaTechsFrom(Contains(schema, "postgresql"), Contains(schema, "mysql"), Contains(schema, "sqlite"))
  }

  function SchemaTechsFrom(postgres: bool, mysql: bool, sqlite: bool): seq<Tech> {
    [Prisma]
    + When(postgres, [PostgreSql])
    + When(mysql, [MySql])
    + When(sqlite, [Sqlite])
  }

  /** Every tag in detection order, repeats included. */
  function RawTechs(f: ProjectFiles): seq<Tech> {
    ConfigTechs(f)
    + PackageTechs(f)
    + (if f.requirements.Some? then RequirementTechs(f.requirements.value) else [])
    + (if f.prismaSchema.Some? then SchemaTechs(f.prismaSchema.value) else [])
  }

  /** `detectTechStack`: the tags with repeats removed, first occurrence kept. */
  function DetectTechStack(f: ProjectFiles): (r: seq<Tech>)
    ensures Distinct(r)
    ensures forall t :: t in r <==> t in RawTechs(f)
    ensures InFirstOrder(r, RawTechs(f))
  {
    Dedup(RawTechs(f))
  }

  /** A tag comes from one of the four groups of checks. */
  lemma {:induction false} FromGroups(f: ProjectFiles, t: Tech)
    ensures t in DetectTechStack(f) <==>
      t in ConfigTechs(f) || t in PackageTechs(f)
      || (f.requirements.Some? && t in RequirementTechs(f.requirements.value))
      || (f.prismaSchema.Some? && t in SchemaTechs(f.prismaSchema.value))
  {
    var c, p := ConfigTechs(f), PackageTechs(f);
    var q := if f.requirements.Some? then RequirementTechs(f.requirements.value) else [];
    var s := if f.prismaSchema.Some? then SchemaTechs(f.prismaSchema.value) else [];
    assert RawTechs(f) == c + p + q + s;
    InConcat(c, p, q, s, t);
    assert t in DetectTechStack(f) <==> t in RawTechs(f);
  }

  lemma InConcat<T>(a: seq<T>, b: seq<T>, c: seq<T>, d: seq<T>, x: T)
    ensures x in a + b + c + d <==> x in a || x in b || x in c || x in d
  {
  }

  /** The tags each group of checks can produce. */
  predicate FrameworkTag(t: Tech) { t.NextJs? || t.React? || t.Vue? || t.Express? || t.TypeScript? }
  predicate ToolTag(t: Tech) { t.Tailwind? || t.Prisma? || t.SocketIO? || t.Electron? }
  predicate PackageTag(t: Tech) { FrameworkTag(t) || ToolTag(t) }
  predicate WebTag(t: Tech) { t.Flask? || t.Django? || t.FastApi? || t.SqlAlchemy? }
  predicate AiTag(t: Tech) { t.PyTorch? || t.TensorFlow? || t.OpenAi? || t.Anthropic? }
  predicate RequirementTag(t: Tech) { WebTag(t) || AiTag(t) }
  predicate SchemaTag(t: Tech) { t.Prisma? || t.PostgreSql? || t.MySql? || t.Sqlite? }

  /** What the dependency checks can contribute. */
  lemma PackageGroup(f: ProjectFiles)
    ensures forall t :: t in PackageTechs(f) ==> PackageTag(t)
    ensures Prisma in PackageTechs(f) <==> HasDep(f, "prisma") || HasDep(f, "@prisma/client")
  {
    PackageTable(HasDep(f, "next"), HasDep(f, "react"), HasDep(f, "vue"), HasDep(f, "express"),
                 HasDep(f, "typescript"), HasDep(f, "tailwindcss"), HasDep(f, "prisma") || HasDep(f, "@prisma/client"),
                 HasDep(f, "socket.io"), HasDep(f, "electron"));
  }

  lemma PackageTable(next: bool, react: bool, vue: bool, express: bool, typescript: bool,
                     tailwind: bool, prisma: bool, socketIo: bool, electron: bool)
    ensures var r := PackageTechsFrom(next, react, vue, express, typescript, tailwind, prisma, socketIo, electron);
      (forall t :: t in r ==> PackageTag(t))
      && (Prisma in r <==> prisma)
  {
    var a, b := FrameworkTechs(next, react, vue, express, typescript), ToolTechs(tailwind, prisma, socketIo, electron);
    assert forall t :: t in a ==> FrameworkTag(t);
    assert forall t :: t in b ==> ToolTag(t);
    assert Prisma in b <==> prisma;
    assert forall t :: t in a + b <==> t in a || t in b;
  }

  /** What the requirements checks can contribute. */
  lemma RequirementsGroup(reqs: string)
    ensures forall t :: t in RequirementTechs(reqs) ==> RequirementTag(t)
  {
    RequirementsTable(Contains(reqs, "flask"), Contains(reqs, "django"), Contains(reqs, "fastapi"),
                      Contains(reqs, "sqlalchemy"), Contains(reqs, "pytorch") || Contains(reqs, "torch"),
                      Contains(reqs, "tensorflow"), Contains(reqs, "openai"), Contains(reqs, "anthropic"));
  }

  lemma RequirementsTable(flask: bool, django: bool, fastApi: bool, sqlAlchemy: bool, torch: bool,
                          tensorFlow: bool, openAi: bool, anthropic: bool)
    ensures forall t :: t in RequirementTechsFrom(flask, django, fastApi, sqlAlchemy, torch, tensorFlow, openAi, anthropic) ==>
      RequirementTag(t)
  {
    var a, b := WebTechs(flask, django, fastApi, sqlAlchemy), AiTechs(torch, tensorFlow, openAi, anthropic);
    assert forall t :: t in a ==> WebTag(t);
    assert forall t :: t in b ==> AiTag(t);
    assert forall t :: t in a + b <==> t in a || t in b;
  }

  /** What the schema check can contribute. */
  lemma SchemaGroup(schema: string)
    ensures forall t :: t in SchemaTechs(schema) ==> SchemaTag(t)
    ensures Prisma in SchemaTechs(schema)
  {
    SchemaTable(Contains(schema, "postgresql"), Contains(schema, "mysql"), Contains(schema, "sqlite"));
  }

  lemma SchemaTable(postgres: bool, mysql: bool, sqlite: bool)
    ensures forall t :: t in SchemaTechsFrom(postgres, mysql, sqlite) ==> SchemaTag(t)
    ensures Prisma in SchemaTechsFrom(postgres, mysql, sqlite)
  {
  }

  /** What the config-file checks contribute. */
  lemma ConfigGroup(f: ProjectFiles)
    ensures NodeJs in ConfigTechs(f) <==> f.packageJson.Some?
    ensures Python in ConfigTechs(f) <==> f.requirements.Some?
    ensures DotNet in ConfigTechs(f) <==> AnyEndsWith(f.listing, ".csproj") || AnyEndsWith(f.listing, ".sln")
    ensures Java in ConfigTechs(f) <==> f.hasPomXml || f.hasBuildGradle
    ensures Prisma !in ConfigTechs(f)
  {
    ConfigTable(f.packageJson.Some?, f.requirements.Some?, f.hasCargoToml, f.hasGoMod,
                AnyEndsWith(f.listing, ".csproj"), AnyEndsWith(f.listing, ".sln"), f.hasPomXml, f.hasBuildGradle);
  }

  lemma ConfigTable(pkg: bool, reqs: bool, cargo: bool, goMod: bool, csproj: bool, sln: bool, pom: bool, gradle: bool)
    ensures var r := ConfigTechsFrom(pkg, reqs, cargo, goMod, csproj, sln, pom, gradle);
      (NodeJs in r <==> pkg) && (Python in r <==> reqs) && (DotNet in r <==> csproj || sln)
      && (Java in r <==> pom || gradle) && Prisma !in r
  {
    LanguageFiles(pkg, reqs, cargo, goMod);
    DotNetFiles(csproj, sln);
    JavaFiles(pom, gradle);
  }

  lemma LanguageFiles(pkg: bool, reqs: bool, cargo: bool, goMod: bool)
    ensures var a := LanguageTechs(pkg, reqs, cargo, goMod);
      (NodeJs in a <==> pkg) && (Python in a <==> reqs) && DotNet !in a && Java !in a && Prisma !in a
  {
  }

  lemma DotNetFiles(csproj: bool, sln: bool)
    ensures var b := DotNetTechs(csproj, sln);
      (DotNet in b <==> csproj || sln) && NodeJs !in b && Python !in b && Java !in b && Prisma !in b
  {
  }

  lemma JavaFiles(pom: bool, gradle: bool)
    ensures var c := JvmTechs(pom, gradle);
      (Java in c <==> pom || gradle) && NodeJs !in c && Python !in c && DotNet !in c && Prisma !in c
  {
  }

  /** A tag that neither the dependencies, nor the requirements, nor the
      schema produce is detected exactly when a config file yields it. */
  lemma OnlyFromConfig(f: ProjectFiles, t: Tech)
    requires !PackageTag(t)
    requires !RequirementTag(t)
    requires !SchemaTag(t)
    ensures t in DetectTechStack(f) <==> t in ConfigTechs(f)
  {
    PackageGroup(f);
    if f.requirements.Some? {
      RequirementsGroup(f.requirements.value);
    }
    if f.prismaSchema.Some? {
      SchemaGroup(f.prismaSchema.value);
    }
    FromGroups(f, t);
  }

  /** Node.js exactly for a `package.json`. */
  lemma NodeTag(f: ProjectFiles)
    ensures NodeJs in DetectTechStack(f) <==> f.packageJson.Some?
  {
    ConfigGroup(f);
    OnlyFromConfig(f, NodeJs);
  }

  /** Python exactly for a `requirements.txt`. */
  lemma PythonTag(f: ProjectFiles)
    ensures Python in DetectTechStack(f) <==> f.requirements.Some?
  {
    ConfigGroup(f);
    OnlyFromConfig(f, Python);
  }

  /** .NET exactly for a C# project or a solution file. */
  lemma DotNetTag(f: ProjectFiles)
    ensures DotNet in DetectTechStack(f) <==> AnyEndsWith(f.listing, ".csproj") || AnyEndsWith(f.listing, ".sln")
  {
    ConfigGroup(f);
    OnlyFromConfig(f, DotNet);
  }

  /** Java exactly for a Maven or Gradle build. */
  lemma JavaTag(f: ProjectFiles)
    ensures Java in DetectTechStack(f) <==> f.hasPomXml || f.hasBuildGradle
  {
    ConfigGroup(f);
    OnlyFromConfig(f, Java);
  }

  /** Prisma exactly for a Prisma dependency or a schema file. */
  lemma {:induction false} PrismaTag(f: ProjectFiles)
    ensures Prisma in DetectTechStack(f) <==> HasDep(f, "prisma") || HasDep(f, "@prisma/client") || f.prismaSchema.Some?
  {
    FromGroups(f, Prisma);
    ConfigGroup(f);
    PackageGroup(f);
    RequirementsGroup(f.requirements.GetOr(""));
    SchemaGroup(f.prismaSchema.GetOr(""));
  }

  // ---------------------------------------------------------------------
  // getClaudeSummaries
  // ---------------------------------------------------------------------

  /** The fields of a session-log record the route reads. */
  datatype LogRecord = LogRecord(kind: string, summary: Option<string>)

  /** A log line that contributes summary y: not blank, parses, has type
      "summary" and a truthy summary equal to y. */
  predicate SummaryLine(line: string, parse: string -> Option<LogRecord>, y: string) {
    Trim(line) != "" && parse(line) == Some(LogRecord("summary", Some(y))) && y != ""
  }

  /** Some line contributes summary y. */
  predicate LinesHave(lines: seq<string>, parse: string -> Option<LogRecord>, y: string) {
    exists i :: 0 <= i < |lines| && SummaryLine(lines[i], parse, y)
  }

  /** The summaries found in the lines, in order. */
  function LineSummaries(lines: seq<string>, parse: string -> Option<LogRecord>): (r: seq<string>)
    ensures forall y :: y in r <==> LinesHave(lines, parse, y)
  {
    if |lines| == 0 then []
    else
      var rest := LineSummaries(lines[1..], parse);
      var line := lines[0];
      var here := if Trim(line) != "" && parse(line).Some? && parse(line).value.kind == "summary" && Truthy(parse(line).value.summary)
        then [parse(line).value.summary.value] else [];
      assert forall y :: LinesHave(lines, parse, y) <==> (SummaryLine(line, parse, y) || LinesHave(lines[1..], parse, y)) by {
        forall y ensures LinesHave(lines, parse, y) <==> (SummaryLine(line, parse, y) || LinesHave(lines[1..], parse, y)) {
          if LinesHave(lines, parse, y) {
            var i :| 0 <= i < |lines| && SummaryLine(lines[i], parse, y);
            if i > 0 {
              assert lines[1..][i - 1] == lines[i];
            }
          }
          if LinesHave(lines[1..], parse, y) {
            var i :| 0 <= i < |lines| - 1 && SummaryLine(lines[1..][i], parse, y);
            assert lines[i + 1] == lines[1..][i];
          }
        }
      }
      here + rest
  }

  /** A file of the session folder: its name and its content. */
  datatype LogFile = LogFile(name: string, content: string)

  predicate IsLog(f: LogFile) { EndsWith(f.name, ".jsonl") }

  /** A `.jsonl` file with a line contributing y. */
  predicate FileHas(f: LogFile, parse: string -> Option<LogRecord>, y: string) {
    IsLog(f) && LinesHave(Split(f.content, '\n'), parse, y)
  }

  /** Some `.jsonl` file has a line contributing y. */
  predicate LoggedSummary(files: seq<LogFile>, parse: string -> Option<LogRecord>, y: string) {
    exists k :: 0 <= k < |files| && FileHas(files[k], parse, y)
  }

  function FileSummaries(files: seq<LogFile>, parse: string -> Option<LogRecord>): (r: seq<string>)
    ensures forall y :: y in r <==> LoggedSummary(files, parse, y)
  {
    if |files| == 0 then []
    else
      var rest := FileSummaries(files[1..], parse);
      var here := if IsLog(files[0]) then LineSummaries(Split(files[0].content, '\n'), parse) else [];
      assert forall y :: LoggedSummary(files, parse, y) <==> (FileHas(files[0], parse, y) || LoggedSummary(files[1..], parse, y)) by {
        forall y ensures LoggedSummary(files, parse, y) <==> (FileHas(files[0], parse, y) || LoggedSummary(files[1..], parse, y)) {
          if LoggedSummary(files, parse, y) {
            var k :| 0 <= k < |files| && FileHas(files[k], parse, y);
            if k > 0 {
              assert files[1..][k - 1] == files[k];
            }
          }
          if LoggedSummary(files[1..], parse, y) {
            var k :| 0 <= k < |files| - 1 && FileHas(files[1..][k], parse, y);
            assert files[k + 1] == files[1..][k];
          }
        }
      }
      here + rest
  }

  /** `getClaudeSummaries`: every distinct summary of the project's session
      logs, sorted; nothing when the session folder does not exist. */
  function ClaudeSummaries(folder: Option<seq<LogFile>>, parse: string -> Option<LogRecord>): (r: seq<string>)
    ensures StrictlySorted(r)
    ensures folder.None? ==> r == []
    ensures folder.Some? ==> forall y :: y in r <==> LoggedSummary(folder.value, parse, y)
  {
    match folder
    case None => []
    case Some(files) => SortUnique(FileSummaries(files, parse))
  }

  // ---------------------------------------------------------------------
  // getGitInfo
  // ---------------------------------------------------------------------

  const Separator := "|||"

  /** The first occurrence of t in s. */
  function Find(s: string, t: string): (r: Option<nat>)
    requires |t| > 0
    ensures r.Some? ==> OccursAt(s, t, r.value) && forall j :: 0 <= j < r.value ==> !OccursAt(s, t, j)
    ensures r.None? ==> forall j :: 0 <= j ==> !OccursAt(s, t, j)
    decreases |s|
  {
    if |s| < |t| then None
    else if s[..|t|] == t then Some(0)
    else
      match Find(s[1..], t)
      case None =>
        assert forall j :: 0 <= j ==> !OccursAt(s, t, j) by {
          forall j | 0 < j ensures !OccursAt(s, t, j) {
            if OccursAt(s, t, j) {
              assert s[1..][j - 1..j - 1 + |t|] == s[j..j + |t|];
              assert OccursAt(s[1..], t, j - 1);
            }
          }
        }
        None
      case Some(i) =>
        assert s[i + 1..i + 1 + |t|] == s[1..][i..i + |t|];
        assert forall j :: 0 <= j < i + 1 ==> !OccursAt(s, t, j) by {
          forall j | 0 < j < i + 1 ensures !OccursAt(s, t, j) {
            if OccursAt(s, t, j) {
              assert s[1..][j - 1..j - 1 + |t|] == s[j..j + |t|];
              assert OccursAt(s[1..], t, j - 1);
            }
          }
        }
        Some(i + 1)
  }

  /** The first two parts of `s.split('|||')`; the second is undefined
      (None) when the separator does not occur. */
  function SplitFirstTwo(s: string): (r: (string, Option<string>))
    ensures r.1.None? <==> !Contains(s, Separator)
    ensures r.1.None? ==> r.0 == s
    ensures r.1.Some? ==>
      && PartBefore(s, Separator, r.0) && OccursAt(s, Separator, |r.0|)
      && PartBefore(s[|r.0| + |Separator|..], Separator, r.1.value)
  {
    match Find(s, Separator)
    case None => (s, None)
    case Some(i) =>
      var rest := s[i + |Separator|..];
      assert s[..i] == s[..|s[..i]|];
      match Find(rest, Separator)
      case None =>
        assert PartBefore(rest, Separator, rest);
        (s[..i], Some(rest))
      case Some(j) =>
        assert rest[..j] == rest[..|rest[..j]|];
        (s[..i], Some(rest[..j]))
  }

  /** a is s up to the first occurrence of t, or all of s when t does not occur. */
  predicate PartBefore(s: string, t: string, a: string) {
    && StartsWith(s, a)
    && (|a| == |s| || OccursAt(s, t, |a|))
    && forall j :: 0 <= j < |a| ==> !OccursAt(s, t, j)
  }

  datatype GitInfo = GitInfo(hasGit: bool, lastCommitDate: Option<string>, lastCommitMessage: Option<string>)

  /** `getGitInfo`: no `.git` folder means no git; a failing `git log`
      still means git, without dates. */
  function GetGitInfo(hasGitDir: bool, output: Option<string>): (r: GitInfo)
    ensures !hasGitDir ==> r == GitInfo(false, None, None)
    ensures hasGitDir && output.None? ==> r == GitInfo(true, None, None)
    ensures hasGitDir && output.Some? ==> r.hasGit && r.lastCommitDate.Some?
  {
    if !hasGitDir then GitInfo(false, None, None)
    else match output
      case None => GitInfo(true, None, None)
      case Some(out) =>
        var parts := SplitFirstTwo(Trim(out));
        GitInfo(true, Some(parts.0), parts.1)
  }

  lemma TrimUnspaced(s: string)
    requires s != [] && !IsSpace(s[0]) && !IsSpace(s[|s| - 1])
    ensures Trim(s) == s
  {
    assert TrimStart(s) == s;
    assert TrimEnd(s) == s;
  }

  /** The `%ai|||%s` line is read back: the date and the subject come out
      as they went in, as long as neither contains the separator, the date
      does not end in '|' and the line has no white space at its ends. */
  lemma {:induction false} GitInfoRoundTrip(date: string, subject: string)
    requires !Contains(date, Separator) && !Contains(subject, Separator)
    requires date != [] && !IsSpace(date[0]) && date[|date| - 1] != '|'
    requires subject != [] && !IsSpace(subject[|subject| - 1])
    ensures GetGitInfo(true, Some(date + Separator + subject)) == GitInfo(true, Some(date), Some(subject))
  {
    var line := date + Separator + subject;
    assert line[0] == date[0] && line[|line| - 1] == subject[|subject| - 1];
    TrimUnspaced(line);
    assert OccursAt(line, Separator, |date|) by {
      assert line[|date|..|date| + 3] == Separator;
    }
    forall j | 0 <= j < |date| ensures !OccursAt(line, Separator, j) {
      if j + 3 <= |date| {
        assert line[j..j + 3] == date[j..j + 3];
        assert !OccursAt(date, Separator, j);
      } else {
        assert line[j..j + 3][|date| - 1 - j] == line[|date| - 1] == date[|date| - 1];
      }
    }
    var i := Find(line, Separator).value;
    assert i == |date|;
    var rest := line[i + 3..];
    assert rest == subject;
    assert Find(rest, Separator).None?;
    assert line[..|date|] == date;
    assert SplitFirstTwo(line) == (date, Some(subject));
  }

  /** A `.git` folder whose log cannot be read, or no folder at all, gives
      no commit: the date is present exactly when git answered. */
  lemma GitDateIffOutput(hasGitDir: bool, output: Option<string>)
    ensures GetGitInfo(hasGitDir, output).lastCommitDate.Some? <==> hasGitDir && output.Some?
    ensures GetGitInfo(hasGitDir, output).hasGit == hasGitDir
  {
  }

  // ---------------------------------------------------------------------
  // getReadmeDescription
  // ---------------------------------------------------------------------

  /** Line i is the description: non-blank, neither a heading nor an
      image, and after some heading. */
  predicate Describes(lines: seq<string>, i: nat)
    requires i < |lines|
  {
    Trim(lines[i]) != "" && !StartsWith(lines[i], "#") && !StartsWith(lines[i], "!")
    && TitleBefore(lines, i)
  }

  /** Some line before line i is a heading. */
  predicate TitleBefore(lines: seq<string>, i: nat)
    requires i <= |lines|
  {
    exists j :: 0 <= j < i && StartsWith(lines[j], "#")
  }

  lemma TitleBeforeNext(lines: seq<string>, k: nat)
    requires k < |lines|
    ensures TitleBefore(lines, k + 1) <==> TitleBefore(lines, k) || StartsWith(lines[k], "#")
  {
    if TitleBefore(lines, k + 1) && !StartsWith(lines[k], "#") {
      var j :| 0 <= j < k + 1 && StartsWith(lines[j], "#");
      assert j < k;
    }
  }

  /** No line of the file is a description. */
  predicate NoDescription(lines: seq<string>) {
    forall i :: 0 <= i < |lines| ==> !Describes(lines, i)
  }

  /** Line i is the first description of the file. */
  predicate FirstDescription(lines: seq<string>, i: nat) {
    i < |lines| && Describes(lines, i) && forall j :: 0 <= j < i ==> !Describes(lines, j)
  }

  /** The scan of one README, as the source's loop does it: the first
      description line, trimmed and cut to 200 characters. */
  method ParagraphAfterTitle(content: string) returns (d: Option<string>)
    ensures d.None? <==> NoDescription(Split(content, '\n'))
    ensures d.Some? ==> ParagraphOf(content, d.value) && 0 < |d.value| <= 200
  {
    var lines := Split(content, '\n');
    var foundTitle := false;
    var k := 0;
    while k < |lines|
      invariant 0 <= k <= |lines|
      invariant foundTitle == TitleBefore(lines, k)
      invariant forall j :: 0 <= j < k ==> !Describes(lines, j)
    {
      var line := lines[k];
      TitleBeforeNext(lines, k);
      if StartsWith(line, "#") {
        foundTitle := true;
      } else if foundTitle && Trim(line) != "" && !StartsWith(line, "!") {
        FirstDescriptionFound(content, k);
        return Some(Take(Trim(line), 200));
      }
      k := k + 1;
    }
    return None;
  }

  /** A first description makes the file described, and its paragraph is
      that line trimmed and cut. */
  lemma FirstDescriptionFound(content: string, k: nat)
    requires FirstDescription(Split(content, '\n'), k)
    ensures !NoDescription(Split(content, '\n'))
    ensures ParagraphOf(content, Take(Trim(Split(content, '\n')[k]), 200))
  {
  }

  /** `text` is the first description of the file, trimmed and cut. */
  predicate ParagraphOf(content: string, text: string) {
    exists i: nat :: i < |Split(content, '\n')| && FirstDescription(Split(content, '\n'), i) && text == Take(Trim(Split(content, '\n')[i]), 200)
  }

  /** File k is the first present file with a description. */
  predicate FirstDescribedFile(readmes: seq<Option<string>>, k: int) {
    0 <= k < |readmes| && readmes[k].Some? && !NoDescription(Split(readmes[k].value, '\n'))
    && forall m :: 0 <= m < k && readmes[m].Some? ==> NoDescription(Split(readmes[m].value, '\n'))
  }

  /** d is what the README files say: nothing when no present file has a
      description, else the paragraph of the first that has one. */
  predicate ReadmeResult(readmes: seq<Option<string>>, d: Option<string>) {
    (d.None? <==> forall k :: 0 <= k < |readmes| && readmes[k].Some? ==> NoDescription(Split(readmes[k].value, '\n')))
    && (d.Some? ==> exists k :: 0 <= k < |readmes| && FirstDescribedFile(readmes, k) && ParagraphOf(readmes[k].value, d.value))
  }

  /** `getReadmeDescription`: README.md, readme.md, README.txt, readme.txt
      in that order (None for a missing file); the first that yields a
      description wins. */
  method ReadmeDescription(readmes: seq<Option<string>>) returns (d: Option<string>)
    ensures d.Some? ==> 0 < |d.value| <= 200
    ensures ReadmeResult(readmes, d)
  {
    var k := 0;
    while k < |readmes|
      invariant 0 <= k <= |readmes|
      invariant forall m :: 0 <= m < k && readmes[m].Some? ==> NoDescription(Split(readmes[m].value, '\n'))
    {
      if readmes[k].Some? {
        var found := ParagraphAfterTitle(readmes[k].value);
        if found.Some? {
          FoundInFile(readmes, k, found.value);
          return found;
        }
      }
      k := k + 1;
    }
    return None;
  }

  /** The first file with a description decides the result. */
  lemma FoundInFile(readmes: seq<Option<string>>, k: nat, text: string)
    requires k < |readmes| && readmes[k].Some?
    requires forall m :: 0 <= m < k && readmes[m].Some? ==> NoDescription(Split(readmes[m].value, '\n'))
    requires !NoDescription(Split(readmes[k].value, '\n')) && ParagraphOf(readmes[k].value, text)
    ensures ReadmeResult(readmes, Some(text))
  {
    assert FirstDescribedFile(readmes, k);
  }

  // ---------------------------------------------------------------------
  // generateProjectSummary
  // ---------------------------------------------------------------------

  /** Where the summary comes from, in order of preference. */
  datatype Source = FromPackage | FromRequirements | FromReadme | FromSessions | FromStack | FromPlaceholder

  /** `firstLine.replace(/^#\s*\/, '')` for a first line starting with '#':
      the header is what follows the '#' and the blanks after it. */
  function RequirementsHeader(reqs: string): (r: Option<string>)
    ensures r.None? <==> !StartsWith(Split(reqs, '\n')[0], "#")
    ensures r.Some? ==> exists blanks :: AllSpace(blanks) && "#" + blanks + r.value == Split(reqs, '\n')[0]
    ensures r.Some? ==> r.value == [] || !IsSpace(r.value[0])
  {
    var first := Split(reqs, '\n')[0];
    if StartsWith(first, "#") then
      HeaderParts(first);
      Some(TrimStart(first[1..]))
    else None
  }

  lemma HeaderParts(first: string)
    requires StartsWith(first, "#")
    ensures exists blanks :: AllSpace(blanks) && "#" + blanks + TrimStart(first[1..]) == first
  {
    var rest := first[1..];
    var h := TrimStart(rest);
    var blanks := rest[..|rest| - |h|];
    assert rest == blanks + h;
    assert first == first[..1] + rest;
    assert first[..1] == "#";
    Seqs.ConcatAssoc("#", blanks, h);
    assert AllSpace(blanks) && "#" + blanks + h == first;
  }

  predicate AllSpace(s: string) { forall k :: 0 <= k < |s| ==> IsSpace(s[k]) }

  function PackageDescriptionOf(f: ProjectFiles): Option<string> {
    if f.packageJson.Some? && f.packageJson.value.Parsed? && Truthy(f.packageJson.value.description)
    then f.packageJson.value.description else None
  }

  function HeaderOf(f: ProjectFiles): Option<string> {
    if f.requirements.Some? then RequirementsHeader(f.requirements.value) else None
  }

  /** The first source that has something to say. */
  function ChooseSource(f: ProjectFiles, tech: seq<Tech>, sessions: seq<string>, readme: Option<string>): Source {
    if PackageDescriptionOf(f).Some? then FromPackage
    else if HeaderOf(f).Some? then FromRequirements
    else if Truthy(readme) then FromReadme
    else if |sessions| > 0 then FromSessions
    else if |tech| > 0 then FromStack
    else FromPlaceholder
  }

  function FirstN(xs: seq<string>, n: nat): seq<string> { if |xs| <= n then xs else xs[..n] }

  const SessionsLead := "Work includes: "
  const StackMarker := " project using "
  const PlaceholderTail := " - no description available"

  /** The text of the chosen source, before truncation. */
  function SourceText(src: Source, name: string, f: ProjectFiles, tech: seq<Tech>, sessions: seq<string>, readme: Option<string>): string {
    match src
    case FromPackage => PackageDescriptionOf(f).GetOr("")
    case FromRequirements => HeaderOf(f).GetOr("")
    case FromReadme => readme.GetOr("")
    case FromSessions => SessionsLead + Join(FirstN(sessions, 5), ", ")
    case FromStack => name + StackMarker + Join(FirstN(TechNames(tech), 3), ", ")
    case FromPlaceholder => name + PlaceholderTail
  }

  const SummaryLimit := 300

  /** `generateProjectSummary`: the first available source, cut to 300
      characters. */
  function GenerateSummary(name: string, f: ProjectFiles, tech: seq<Tech>, sessions: seq<string>, readme: Option<string>): (r: string)
    ensures |r| <= SummaryLimit
    ensures PackageDescriptionOf(f).Some? ==> r == Take(PackageDescriptionOf(f).value, SummaryLimit)
    ensures PackageDescriptionOf(f).None? && HeaderOf(f).Some? ==> r == Take(HeaderOf(f).value, SummaryLimit)
    ensures PackageDescriptionOf(f).None? && HeaderOf(f).None? && Truthy(readme) ==>
      r == Take(readme.value, SummaryLimit)
    ensures PackageDescriptionOf(f).None? && HeaderOf(f).None? && !Truthy(readme) && |sessions| > 0 ==>
      r == Take(SessionsLead + Join(FirstN(sessions, 5), ", "), SummaryLimit)
    ensures PackageDescriptionOf(f).None? && HeaderOf(f).None? && !Truthy(readme) && sessions == [] && |tech| > 0 ==>
      r == Take(name + StackMarker + Join(FirstN(TechNames(tech), 3), ", "), SummaryLimit)
    ensures PackageDescriptionOf(f).None? && HeaderOf(f).None? && !Truthy(readme) && sessions == [] && tech == [] ==>
      r == Take(name + PlaceholderTail, SummaryLimit)
  {
    Take(SourceText(ChooseSource(f, tech, sessions, readme), name, f, tech, sessions, readme), SummaryLimit)
  }

  /** The order of preference, stated source by source. */
  lemma SourcePriority(f: ProjectFiles, tech: seq<Tech>, sessions: seq<string>, readme: Option<string>)
    ensures var src := ChooseSource(f, tech, sessions, readme);
      (src == FromPackage <==> PackageDescriptionOf(f).Some?)
      && (src == FromRequirements <==> PackageDescriptionOf(f).None? && HeaderOf(f).Some?)
      && (src == FromReadme <==> PackageDescriptionOf(f).None? && HeaderOf(f).None? && Truthy(readme))
      && (src == FromSessions <==> PackageDescriptionOf(f).None? && HeaderOf(f).None? && !Truthy(readme) && |sessions| > 0)
      && (src == FromStack <==> PackageDescriptionOf(f).None? && HeaderOf(f).None? && !Truthy(readme) && sessions == [] && |tech| > 0)
      && (src == FromPlaceholder <==> PackageDescriptionOf(f).None? && HeaderOf(f).None? && !Truthy(readme) && sessions == [] && tech == [])
  {
  }

  /** A requirements file whose first line is a bare '#' gives an empty
      summary: the header is pushed even when nothing follows the '#'. */
  lemma BareHashGivesEmptySummary(name: string)
    ensures var f := ProjectFiles([], None, Some("#\nflask"), false, false, false, false, None);
      GenerateSummary(name, f, [Python, Flask], [], None) == ""
  {
    var f := ProjectFiles([], None, Some("#\nflask"), false, false, false, false, None);
    BareHashHeader();
    assert HeaderOf(f) == Some("");
    assert ChooseSource(f, [Python, Flask], [], None) == FromRequirements;
  }

  lemma BareHashHeader()
    ensures RequirementsHeader("#\nflask") == Some("")
  {
    var reqs := "#\nflask";
    assert reqs == "#" + ['\n'] + "flask";
    SplitCons("#", '\n', "flask");
    assert Split(reqs, '\n')[0] == "#";
    assert StartsWith("#", "#") && "#"[1..] == [];
    assert TrimStart([]) == [];
  }
}
