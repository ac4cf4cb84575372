/** The dashboard's entities and the closed string unions they use (src/types/index.ts).
    Each union becomes a datatype together with the exact string the application stores for it. */
module Types {
  import opened JsValues

  datatype Region = MainlandChina | Taiwan | UnitedStates | Japan | Korea | Europe | OtherRegion

  function RegionName(r: Region): string
  {
    match r
    case MainlandChina => "中国大陆"
    case Taiwan => "台湾"
    case UnitedStates => "美国"
    case Japan => "日本"
    case Korea => "韩国"
    case Europe => "欧洲"
    case OtherRegion => "其他"
  }

  datatype Industry = Design | Manufacturing | PackagingTest | Equipment | Materials | IpEda | OtherIndustry

  function IndustryName(i: Industry): string
  {
    match i
    case Design => "设计"
    case Manufacturing => "制造"
    case PackagingTest => "封测"
    case Equipment => "设备"
    case Materials => "材料"
    case IpEda => "IP/EDA"
    case OtherIndustry => "其他"
  }

  datatype CompanyStatus = Active | Pending | Inactive

  function CompanyStatusName(s: CompanyStatus): string
  {
    match s
    case Active => "active"
    case Pending => "pending"
    case Inactive => "inactive"
  }

  datatype RoadmapStatus = Planning | InProgress | Completed | Delayed | Cancelled

  function RoadmapStatusName(s: RoadmapStatus): string
  {
    match s
    case Planning => "planning"
    case InProgress => "in_progress"
    case Completed => "completed"
    case Delayed => "delayed"
    case Cancelled => "cancelled"
  }

  datatype ProcessType = FinFet | Gaa | FdSoi | ConventionalCmos | OtherProcess

  datatype WaferSize = Inch6 | Inch8 | Inch12 | Inch18

  datatype InsightCategory = Trend | Market | Technology | Policy | Acquisition | OtherCategory

  datatype Role = Admin | Editor | Viewer

  function RoleName(r: Role): string
  {
    match r
    case Admin => "admin"
    case Editor => "editor"
    case Viewer => "viewer"
  }

  /** Distinct union members are stored as distinct strings, so a stored string decodes uniquely. */
  lemma NamesAreInjective()
    ensures forall a: Region, b: Region :: RegionName(a) == RegionName(b) ==> a == b
    ensures forall a: Industry, b: Industry :: IndustryName(a) == IndustryName(b) ==> a == b
    ensures forall a: RoadmapStatus, b: RoadmapStatus :: RoadmapStatusName(a) == RoadmapStatusName(b) ==> a == b
    ensures forall a: Role, b: Role :: RoleName(a) == RoleName(b) ==> a == b
  {
  }

  datatype Company = Company(
    id: string,
    name: string,
    nameEn: string,
    logo: Option<string>,
    country: string,
    region: Region,
    industry: Industry,
    foundedYear: int,
    headquarters: string,
    website: Option<string>,
    description: Option<string>,
    marketCap: Option<real>,
    revenue: Option<real>,
    employees: Option<int>,
    stockCode: Option<string>,
    stockMarket: Option<string>,
    status: CompanyStatus,
    tags: seq<string>,
    createdAt: string,
    updatedAt: string)

  datatype Roadmap = Roadmap(
    id: string,
    companyId: string,
    companyName: string,
    node: string,
    processType: ProcessType,
    status: RoadmapStatus,
    startDate: string,
    endDate: string,
    actualDate: Option<string>,
    capacity: Option<string>,
    waferSize: WaferSize,
    yieldRate: Option<real>,
    investment: Option<real>,
    notes: Option<string>,
    sources: seq<string>,
    createdAt: string,
    updatedAt: string)

  datatype Insight = Insight(
    id: string,
    title: string,
    category: InsightCategory,
    summary: string,
    content: string,
    tags: seq<string>,
    relatedCompanies: seq<string>,
    publishedAt: string,
    source: Option<string>,
    readCount: int)

  datatype User = User(
    id: string,
    username: string,
    email: string,
    role: Role,
    avatar: Option<string>,
    lastLogin: Option<string>)
}
