/** Package records: their fields, their pool location, and the control paragraph they print as. */
module Packages {
  import opened Text
  import opened Paths
  import opened Control
  import opened Versions
  import opened Dependencies

  datatype Package = Package(
    name: string,
    version: Version,
    architecture: string,
    maintainer: string,
    category: string,
    license: string,
    vendor: string,
    homepage: Option<string>,
    origin: Option<string>,
    priority: Option<string>,
    installedSize: Option<string>,
    description: Option<string>,
    indexFilename: Option<string>,
    size: Option<string>,
    sha1: Option<string>,
    sha256: Option<string>,
    md5: Option<string>,
    dependencies: seq<string>,
    preDepends: Option<string>,
    recommends: Option<string>,
    suggests: Option<string>,
    enhances: Option<string>,
    breaks: Option<string>,
    conflicts: Option<string>,
    provided: Option<string>,
    replaced: Option<string>,
    extraFields: seq<Field>,
    filename: string,
    noDepends: bool,
    ignoreIteration: bool)

  datatype PackageError = UnsupportedVersion | NoName | NoSourceFilename | NoPoolPath

  /** The object key a package's body has, or is to have, in the repository. */
  function RepositoryFilename(p: Package, codename: string): Result<string, PackageError>
  {
    if p.indexFilename.Some? then Ok(p.indexFilename.value)
    else if p.name == "" then Err(NoName)
    else if p.filename == "" then Err(NoSourceFilename)
    else
      var prefix := if |p.name| > 2 then p.name[..2] else p.name;
      var derived := "pool/" + codename + "/" + p.name[..1] + "/" + prefix + "/" + Base(p.filename);
      if derived != Clean(derived) then Err(NoPoolPath) else Ok(derived)
  }

  /** The names of the fields a package knows, in the order they are printed. */
  const KNOWN: seq<string> := [
    "Package", "Version", "License", "Vendor", "Architecture", "Maintainer", "Installed-Size",
    "Depends", "Conflicts", "Breaks", "Pre-Depends", "Provides", "Replaces", "Recommends",
    "Suggests", "Enhances", "Section", "Origin", "Priority", "Homepage", "Filename", "Size",
    "SHA1", "SHA256", "MD5sum", "Description"]

  const NO_HOMEPAGE := "http://nourlgiven.example.com/"
  const NO_DESCRIPTION := "no description given"

  /** The relations all dependencies print as, and the conflicts they turn into. */
  function PrintedRelations(dependencies: seq<string>, ignoreIteration: bool): seq<string>
  {
    if dependencies == [] then []
    else Normalize(dependencies[0], ignoreIteration).0 + PrintedRelations(dependencies[1..], ignoreIteration)
  }

  function PrintedConflicts(dependencies: seq<string>, ignoreIteration: bool): seq<string>
  {
    if dependencies == [] then []
    else
      var conflict := Normalize(dependencies[0], ignoreIteration).1;
      (if conflict != "" then [conflict] else []) + PrintedConflicts(dependencies[1..], ignoreIteration)
  }

  function DependsValue(p: Package): Option<string>
  {
    if p.dependencies != [] && !p.noDepends
    then Some(Join(PrintedRelations(p.dependencies, p.ignoreIteration), ", "))
    else None
  }

  function ConflictsValue(p: Package): Option<string>
  {
    var own := if p.conflicts.Some? then [p.conflicts.value] else [];
    var conflicts := own + PrintedConflicts(p.dependencies, p.ignoreIteration);
    if p.conflicts.Some? || conflicts != [] then Some(Join(conflicts, ", ")) else None
  }

  function OrElse(value: Option<string>, default: string): string
  {
    if value.Some? then value.value else default
  }

  /** The values of the known fields, None for those left out. */
  function KnownValues(p: Package, filename: string): (values: seq<Option<string>>)
    ensures |values| == |KNOWN|
  {
    [Some(p.name), Some(FullVersion(p.version)), Some(p.license), Some(p.vendor), Some(p.architecture),
     Some(p.maintainer), Some(OrElse(p.installedSize, "")), DependsValue(p), ConflictsValue(p), p.breaks,
     p.preDepends, p.provided, p.replaced, p.recommends, p.suggests, p.enhances, Some(p.category), p.origin,
     Some(OrElse(p.priority, "")), Some(OrElse(p.homepage, NO_HOMEPAGE)), Some(filename), p.size, p.sha1,
     p.sha256, p.md5, Some(OrElse(p.description, NO_DESCRIPTION))]
  }

  /** The present fields of a row of names and optional values. */
  function Present(names: seq<string>, values: seq<Option<string>>): seq<Field>
    requires |names| == |values|
  {
    if names == [] then []
    else (if values[0].Some? then [Field(names[0], values[0].value)] else []) + Present(names[1..], values[1..])
  }

  function RecordFields(p: Package, filename: string): seq<Field>
  {
    Present(KNOWN, KnownValues(p, filename)) + p.extraFields
  }

  function Render(p: Package, codename: string): Result<string, PackageError>
  {
    match RepositoryFilename(p, codename)
    case Err(e) => Err(e)
    case Ok(filename) => Ok(FieldsText(RecordFields(p, filename)))
  }

  predicate StripClass(c: char)
  {
    c == 'B' || c == 'C' || c == 'S'
  }

  /** Extra field names lose a user-defined-field prefix. */
  function NormalizeExtraName(name: string): string
  {
    if name == "" || name[0] != 'X' then name
    else
      var rest := name[1..];
      var dash := IndexOf(rest, '-');
      if dash == |rest| || dash > 3 || exists i :: 0 <= i < dash && !StripClass(rest[i]) then name
      else rest[dash + 1..]
  }

  function Unknown(fields: seq<Field>): seq<Field>
  {
    if fields == [] then []
    else (if fields[0].name in KNOWN then [] else [fields[0]]) + Unknown(fields[1..])
  }

  function AddExtras(extras: seq<Field>, fields: seq<Field>): seq<Field>
    decreases |fields|
  {
    if fields == [] then extras
    else AddExtras(SetField(extras, NormalizeExtraName(fields[0].name), fields[0].value), fields[1..])
  }

  /** A package read from the values of its known fields and its extra fields. */
  function FromValues(find: string -> Option<string>, extras: seq<Field>): Result<Package, PackageError>
  {
    var full := OrElse(find("Version"), "");
    if ParseVersion(full).None? then Err(UnsupportedVersion)
    else
      var depends := find("Depends");
      Ok(Package(
           OrElse(find("Package"), ""),
           ParseVersion(full).value,
           OrElse(find("Architecture"), ""),
           OrElse(find("Maintainer"), ""),
           OrElse(find("Section"), ""),
           OrElse(find("License"), "unknown"),
           OrElse(find("Vendor"), "none"),
           find("Homepage"),
           find("Origin"),
           find("Priority"),
           find("Installed-Size"),
           find("Description"),
           find("Filename"),
           find("Size"),
           find("SHA1"),
           find("SHA256"),
           find("MD5sum"),
           if depends.Some? then ParseDependencies(depends.value) else [],
           find("Pre-Depends"),
           find("Recommends"),
           find("Suggests"),
           find("Enhances"),
           find("Breaks"),
           find("Conflicts"),
           find("Provides"),
           find("Replaces"),
           extras,
           "", false, false))
  }

  /** A package read from the fields of a control paragraph. */
  function FromFields(fields: seq<Field>): Result<Package, PackageError>
  {
    FromValues(name => Lookup(fields, name), AddExtras([], Unknown(fields)))
  }

  function ParsePackage(input: string): Result<Package, PackageError>
  {
    FromFields(ReadFields(input))
  }

  /** The package an index entry reads back as. */
  function Reread(p: Package, filename: string): Package
  {
    var depends := DependsValue(p);
    Package(p.name,
            if ParseVersion(FullVersion(p.version)).Some? then ParseVersion(FullVersion(p.version)).value else p.version,
            p.architecture, p.maintainer, p.category, p.license, p.vendor,
            Some(OrElse(p.homepage, NO_HOMEPAGE)), p.origin, Some(OrElse(p.priority, "")),
            Some(OrElse(p.installedSize, "")), Some(OrElse(p.description, NO_DESCRIPTION)), Some(filename),
            p.size, p.sha1, p.sha256, p.md5,
            if depends.Some? then ParseDependencies(depends.value) else [],
            p.preDepends, p.recommends, p.suggests, p.enhances, p.breaks, ConflictsValue(p),
            p.provided, p.replaced, p.extraFields, "", false, false)
  }
}
