# A verified model of the multi-cloud Terraform generator

The provider takes an abstract description of an environment (components, a region, a cloud
provider) and writes Terraform text for it. This project models the parts that decide
something and leaves the resource templates out:

- **The catalog** (`Catalog`, `Keys`, `Providers`, `Rows`, `Sizes`): a mutable index filled by every loader.
  Regions keep their first row, VM and database rows are grouped in order, images keep their
  last row. Resolution through the index is proved to be what a scan of all rows would give,
  and the chosen size not to depend on load order.
- **Scripts in heredocs** (`Template`, `Heredoc`, `VmHeredoc`, `ScaleGroupScript`): three printers
  of a bash script into an HCL heredoc, and two of them one after the other. The reader is modelled after "Template Literals" (heredoc templates and
  template literals) of the HCL Native Syntax Specification, and each printer is proved to be
  undone by the reader exactly on a class of scripts that is written out.
- **The assembler** (`HostPlacement`, `BaselineTags`, `Documents`, `Assemble`, `Core`, `FixUp`,
  `Environment`, `Guarantees`): host binding and tagging on clones of shared VM payloads, the
  planning pass, the dispatch pass and the fix-up pass. A document is a record of its kind, the
  names it was placed with, what it declares and what it references. The theorems are about the
  final list: each variable declared once, every reference met, one providers block, and every
  document after what it names.
- **Canonical forms and selection** (`Sorting`, `Sizes`, `LoadBalancer`, `ObjectStorage`,
  `DoBaseline`), **arithmetic and sets** (`Network`, `Detector`) and **the data-safety guard over
  whole runs** (`ManagedDatabase`).

Methods carry the loops and the state of the source and are proved against functions; the lemmas
are about those functions. What a function does to its input is stated once more without it: which
fields a row, a rule or a component keeps, what a key or a seed tells apart, which environments pass. Every lemma carries `{:induction false}`, so its proof is what its body
says, and `hide` keeps the bodies a proof does not need away from the solver. Strings are sequences of characters, integers are unbounded unless a
width matters (`Text.AtoiOrZero` clamps to 64 bits as the library does).

What lies outside is a parameter: parsing an address, rendering the network plan, translating and
rendering the firewall and one component, the Vault node renderer, the lists of bootstrap variables and Vault paths, the
digest function, and whether a document list holds project resources.

## Where the code and its documentation differ

The model follows the code.

- `requiredProvidersBlock` pins `cloudflare` twice exactly when the environment's own provider is
  Cloudflare and a component pins Cloudflare too (`FixUp.ProvidersDistinctIff`; a DNS component does,
  `Guarantees.CloudflareDNSPinsTwice`).
- Not every variable a document references is declared. The module is closed exactly when each
  reference is to a variable that some renderer declares or the assembler knows to supply
  (`Guarantees.ModuleClosedIff`). Many renderers go beyond that: AWS functions (`lambda_role_arn`,
  as in `Guarantees.ServerlessOnAWSIsOpen`) and secret rotation on AWS and GCP, every Oracle
  document (`compartment_id`), OVH (`ovh_service_name`) and IBM (`ibm_resource_group_id`) documents
  down to the network's own, and Azure and Alibaba ones.
- Listeners are said to be stable regardless of input order; that holds exactly when listeners on
  one port resolve alike (`LoadBalancer.ListenerOrderIff`, `LoadBalancer.ListenerOrderMatters`).
- `vmHeredoc` is documented to render literally. It always reads back without a live template
  sequence, but a script indented throughout loses its common indentation, because `<<-` strips it
  (`VmHeredoc.VmHeredocRoundTrip`, `VmHeredoc.IndentedScriptLosesItsIndent`).
- The DigitalOcean droplet heredoc reads a script back only when some non-blank line starts in
  column 0, blank lines are empty, and no line is the closing marker (`Heredoc.Layout`,
  `Heredoc.IndentedDropletChanges`).
- `escapeBashExpansionsForHeredoc` leaves `$${` alone, so a script that holds `$${` does not read
  back (`Template.EscapeBashRoundTrip`, `Template.EscapedTextIsLost`).
- The bootstraps promise that Terraform passes bash expansions through verbatim and interpolates
  `${var.x}`. The DigitalOcean scale-group renderer prints them through `vmHeredoc`, which escapes
  once more: nothing is ever live, and the script arrives as written exactly when the first escape
  had nothing to do (`ScaleGroupScript.DoubleEscapeIff`, `ScaleGroupScript.BareExpansionArrivesEscaped`,
  `ScaleGroupScript.ReferenceArrivesAsText`). The fix-up pass declares the variables either way.
- The derived baseline is documented to lock down all compute. It counts mitigated components but
  not one placed on a VM by its author's choice alone: an environment of nothing else has a VM and
  no firewall (`Core.BaselineFirewallIff`, `Core.ForcedPlacementUnguarded`).
- A joined key tells its parts, up to case, exactly when no part holds a `|`
  (`Keys.UnambiguousIff`, `Keys.BarsCollide`).

## Model

| member | source | states |
|---|---|---|
| Template.EscapeBashExpansionsForHeredoc | internal/catalog/platform_bootstrap_vpn.go:437-459 | the index loop over the script computes the escaping whose laws follow |
| Template.EscapeLeavesOnlyReferences | internal/catalog/platform_bootstrap_vpn.go:441-455 | in the output every `${` not preceded by `$` starts `${var.` or `${data.` |
| Template.EscapeBashIdempotent | internal/catalog/platform_bootstrap_vpn.go:442-446 | escaping twice is escaping once, for every text |
| Template.EscapeBashRoundTrip | internal/catalog/platform_bootstrap_vpn.go:427-459 | reading the output gives the text back if and only if the text holds no `$${` or `%%{`; then exactly the var and data references, and the untouched `%{`, are live |
| Template.EscapeBashReadLength | internal/catalog/platform_bootstrap_vpn.go:442-446 | an escaped sequence already in the text is always lost in reading: the value is strictly shorter |
| Template.EscapedTextIsLost | internal/catalog/platform_bootstrap_vpn.go:442-446 | a concrete text with `$${` that does not read back |
| Template.EscapeAllReadsLiteral | internal/catalog/do_baseline.go:730-737 | a text with `${` and `%{` both escaped reads back as itself with nothing live |
| Template.TwoReplacements | internal/catalog/do_baseline.go:736-737 | the two successive replacements do not interfere: they equal one simultaneous escaping |
| Heredoc.IndentUserData | internal/catalog/do_baseline.go:735-746 | the line loop computes escape-then-indent |
| Heredoc.IndentPreserveVars | internal/catalog/do_baseline.go:900-909 | the line loop computes the indentation alone, empty lines untouched |
| Heredoc.DedentFixedIff | internal/catalog/do_baseline.go:500-500 | stripping the common indentation changes nothing if and only if some non-blank line starts in column 0 or all lines are blank |
| Heredoc.EscapeBody | internal/catalog/do_baseline.go:735-746 | escaping commutes with finding the closing marker and stripping the indentation |
| Heredoc.IndentBodyIff | internal/catalog/do_baseline.go:900-909 | the body read from indented lines is the original lines if and only if the script's layout allows it |
| Heredoc.IndentUserDataRoundTrip | internal/catalog/do_baseline.go:735-746 | the heredoc made by indentUserData reads back as the script, fully literal, if and only if the layout condition holds |
| Heredoc.IndentedDropletChanges | internal/catalog/do_baseline.go:730-746 | a concrete indented script that does not read back |
| Heredoc.DropletScriptRoundTrip | internal/catalog/do_baseline.go:490-501 | escaping, indenting and reading gives the script back if and only if the layout condition holds and nothing was escaped before; the live sequences are then exactly the references |
| VmHeredoc.VmHeredoc | internal/catalog/render.go:467-491 | the printed expression uses the shortest delimiter no line collides with, and the escaped, newline-terminated text |
| VmHeredoc.GrowDelimiter | internal/catalog/render.go:476-489 | growing the delimiter stops, at the least number of underscores without a collision |
| VmHeredoc.NormaliseByLine | internal/catalog/render.go:468-471 | the script handed to the heredoc is the author's line by line, each without one carriage return before its newline, and closed by a newline |
| VmHeredoc.VmHeredocRoundTrip | internal/catalog/render.go:458-491 | every script evaluates, to literal characters only, and to the normalised script if and only if the script is not indented throughout |
| VmHeredoc.UnindentedReadsBack | internal/catalog/render.go:458-491 | a script whose first character is not white space reads back unchanged |
| VmHeredoc.IndentedScriptLosesItsIndent | internal/catalog/render.go:458-466 | a concrete script for which the documented literal rendering fails |
| ScaleGroupScript.EscapeNormalise | internal/catalog/render.go:468-471 | normalising line ends commutes with the bash escape and touches no reference |
| ScaleGroupScript.DoubleEscapeIff | internal/catalog/platform_bootstrap_vpn.go:418-424 | the script the scale-group renderer prints after the bash escape always arrives literal; it arrives as written if and only if every `${` in it is a reference and it is not indented throughout, and with its references live if and only if there are none besides |
| ScaleGroupScript.BareExpansionArrivesEscaped | internal/catalog/render.go:787-788 | a bare expansion arrives with the escape still in it |
| ScaleGroupScript.ReferenceArrivesAsText | internal/catalog/render.go:787-788 | a variable reference arrives as text |
| Keys.JoinedInjective | internal/catalog/embedded.go:571-582 | keys joined with a bar are equal if and only if their parts are equal up to case, provided only the last part may hold a bar |
| Keys.RegionKeyInjective | internal/catalog/embedded.go:168-170 | region keys agree if and only if the provider tokens are equal and the trimmed names equal up to case |
| Keys.UnambiguousIff | internal/catalog/embedded.go:571-582 | a key of two or more parts determines them up to case if and only if no part holds a bar; any list with a bar shares its key with a list of other parts |
| Keys.BarsCollide | internal/catalog/embedded.go:575-577 | two concrete part lists with one key |
| Text.AtoiNumeral | internal/catalog/virtualmachine.go:366-369 | a written number is read back, negative or not, clamped to 64 bits |
| Text.AtoiMalformed | internal/catalog/virtualmachine.go:366-369 | text that holds anything but digits after its sign counts as 0 |
| Text.LessIff | internal/catalog/embedded.go:727-730 | one name is less than another if and only if it is a proper prefix or smaller at the first difference |
| Text.EqualFoldMeaning | internal/catalog/manageddatabase.go:419-427 | texts are equal up to case if and only if each character is the same or the same letter in the other case |
| Text.TrimSpaceExact | internal/catalog/catalog.go:135-135 | trimming takes the white space off both ends and nothing else |
| Providers.TokensDistinct | internal/catalog/catalog.go:99-135 | two providers share a catalog token only if their names are equal up to case and white space |
| Catalog.EmbeddedCatalog.Empty | internal/catalog/embedded.go:192-192 | the empty catalog satisfies the invariant |
| Catalog.EmbeddedCatalog.AddRegion | internal/catalog/embedded.go:347-351 | appends the row and keeps the invariant: the region index holds the first row per key |
| Catalog.EmbeddedCatalog.AddVM | internal/catalog/embedded.go:362-364 | appends the row; the VM index holds exactly the ordered rows of each key |
| Catalog.EmbeddedCatalog.AddImage | internal/catalog/embedded.go:382-386 | the image index holds the last row per key |
| Catalog.EmbeddedCatalog.AddMDB | internal/catalog/embedded.go:374-376 | appends the row; the database index holds exactly the ordered rows of each key |
| Catalog.EmbeddedCatalog.Fold | internal/catalog/adapter.go:174-252 | folding lines keeps the invariant, adds the rows before the first malformed line in order, and succeeds if and only if no line is malformed |
| Catalog.EmbeddedCatalog.Load | internal/catalog/render_azure.go:46-128 | every loader keeps the invariant and appends what its own decoding accepts |
| Catalog.FieldsOfLine | internal/catalog/render_azure.go:53-53 | splitting a line at its commas undoes joining fields without commas |
| Catalog.SectionRoundTrip | internal/catalog/embedded.go:742-893 | a region, machine, database class or image written as a record of a base table decodes to itself, field by field |
| Catalog.VMTableRoundTrip | internal/catalog/embedded.go:784-812 | a whole table of machines under any header loads as those machines in order |
| Catalog.OracleRoundTrip | internal/catalog/embedded.go:422-492 | the same of Oracle's records, which name their kind and provider |
| Catalog.LinodeRoundTrip | internal/catalog/embedded.go:500-569 | the same of Linode's nine-field records |
| Catalog.VMLineRoundTrip | internal/catalog/render_azure.go:76-93 | a machine written as a line of the Azure, Ubicloud or an adapter's file is read back |
| Catalog.MDBLineRoundTrip | internal/catalog/render_azure.go:107-123 | the same of a database class |
| Catalog.ImageLineRoundTrip | internal/catalog/render_azure.go:94-106 | the same of an image |
| Catalog.RegionLineRoundTrip | internal/catalog/adapter.go:186-206 | a region's line keeps its own provider; in an adapter's file it gets the manifest's |
| Catalog.RefusedIff | internal/catalog/embedded.go:422-569 | a record is refused if and only if its width or its kind is wrong |
| Catalog.LineRefusedIff | internal/catalog/render_azure.go:48-128 | blank lines, comments and the header are passed over; another line is refused if and only if its kind or its width is wrong |
| Catalog.ParseOvh | internal/catalog/render_ovh.go:85-134 | the OVH snapshot reads if and only if every record does and there is a region, and splits into regions and the two kinds of flavor in order |
| Catalog.EmbeddedCatalog.AddOvh | internal/catalog/render_ovh_dispatch.go:34-82 | the nested loops append each region, its database rows and its VM rows in order and keep the indexes exact |
| Catalog.OvhRowsExact | internal/catalog/render_ovh_dispatch.go:39-80 | the rows added are those of every region with every flavor (databases for both engines), and no others |
| Catalog.OvhTablesExact | internal/catalog/render_ovh.go:96-129 | each table holds exactly what the records of its kind say, field by field |
| Catalog.OvhRowsMeaning | internal/catalog/render_ovh_dispatch.go:39-80 | the rows added in their fields: region, machine and database rows carry the flavor's sizes and the region's name |
| Catalog.FamilyIsHead | internal/catalog/render_ovh.go:481-486 | a flavor's family is its name before the first hyphen |
| Catalog.EmbeddedCatalog.LoadAll | internal/catalog/embedded.go:173-328 | after any sequence of loaders the contents are the loaders' rows in order; loading succeeds if and only if every base table has records, every record is well formed, every adapter's manifest and file are in order, the OVH snapshot reads and the provenance record is there |
| Catalog.AdapterLoadsIff | internal/catalog/adapter.go:174-271 | an adapter's file loads if and only if its manifest is complete and registered, a tail adapter's file is there, and every line is in order |
| Catalog.TableLoadsIff | internal/catalog/embedded.go:742-893 | a base table loads if and only if it has a header and every record is in order; the provenance record if and only if it has text |
| Catalog.AcceptedStopsAt | internal/catalog/embedded.go:422-492 | a malformed row ends the load: exactly the rows before it are in |
| Catalog.SelectFirst | internal/catalog/embedded.go:202-206 | the first of a key's rows is the earliest row with that key among all rows |
| Catalog.SelectLast | internal/catalog/embedded.go:229-231 | the last of a key's rows is the latest row with that key among all rows |
| Catalog.EmbeddedCatalog.ResolveRegion | internal/catalog/embedded.go:852-864 | resolution agrees with a scan: an unknown provider, no row, or the first row with the key |
| Catalog.EmbeddedCatalog.ResolveSKU | internal/catalog/embedded.go:587-621 | succeeds if and only if a scan of all VM rows finds the key, CPU and RAM, and returns a (rank, name)-least such row; on failure the five nearest sizes |
| Catalog.EmbeddedCatalog.ResolveDBClass | internal/catalog/embedded.go:713-737 | the same for database classes, least by name |
| Catalog.EmbeddedCatalog.ResolveImage | internal/catalog/embedded.go:771-780 | succeeds if and only if some row has the key, and returns the last one |
| Catalog.SkuChoiceOrderFree | internal/catalog/embedded.go:600-614 | the rank and name chosen do not depend on the order the rows were loaded in |
| Catalog.ClassChoiceOrderFree | internal/catalog/embedded.go:720-733 | the class name chosen does not depend on load order |
| Catalog.VmKeyMeaning | internal/catalog/embedded.go:575-577 | a VM row has the requested key if and only if provider, region and architecture agree up to case |
| Catalog.MdbKeyMeaning | internal/catalog/embedded.go:571-573 | a database row has the requested key if and only if provider, region and engine agree up to case |
| Catalog.ImageKeyMeaning | internal/catalog/embedded.go:579-582 | an image row has the requested key if and only if provider, region, system, version and architecture agree up to case |
| Catalog.RegionKeyMeaning | internal/catalog/embedded.go:168-170 | a region row has the requested key if and only if the provider tokens agree exactly and the trimmed names up to case |
| Catalog.ChosenSKUMeaning | internal/catalog/embedded.go:587-614 | the machine chosen is for the place, architecture and size asked for, and least by rank and name among all the rows that are |
| Catalog.GeneralPurposeFirst | internal/catalog/virtualmachine.go:331-357 | a machine of a general-purpose family is preferred to any of an unlisted one |
| Catalog.ChosenClassMeaning | internal/catalog/embedded.go:713-733 | the class chosen is for the place, engine and size asked for, and least by name among all the rows that are |
| Catalog.NearestMachines | internal/catalog/virtualmachine.go:308-329 | no machine left out of the suggestions is nearer in its own CPU and RAM, nor as near with a smaller name |
| Sizes.Nearest | internal/catalog/manageddatabase.go:465-486 | the nearest rows: as many as asked or available, a sub-multiset of the candidates, ordered by (distance, name), and no omitted candidate strictly before a returned one |
| Sizes.OnlyEqualsTie | internal/catalog/manageddatabase.go:475-480 | two sizes tie if and only if distance and name agree |
| Sizes.DistanceWeighs | internal/catalog/manageddatabase.go:465-474 | a vCPU more or less counts four times a GiB more or less |
| ManagedDatabase.NearestDBSizes | internal/catalog/manageddatabase.go:465-486 | the same on database rows |
| ManagedDatabase.NearestClasses | internal/catalog/manageddatabase.go:465-486 | no class left out is nearer in its own CPU and RAM, nor as near with a smaller name |
| ManagedDatabase.CheckManagedDatabaseDataSafety | internal/catalog/manageddatabase.go:402-454 | accepts if and only if there is no prior or no next plan or the four protected attributes agree, and otherwise reports their changes |
| ManagedDatabase.ChangesAreExact | internal/catalog/manageddatabase.go:407-452 | the violations listed are exactly the attributes that differ, each once, with the old and new values |
| ManagedDatabase.ChangesSay | internal/catalog/manageddatabase.go:407-452 | the report in the plan's terms: each attribute under its name with its old and new value, if and only if it changed |
| ManagedDatabase.LifetimeKeepsIdentity | internal/catalog/manageddatabase.go:402-454 | along any accepted run in which the database lives on, encryption and identifier stay equal and engine and family stay equal up to case |
| ManagedDatabase.AcceptedRunIff | internal/catalog/manageddatabase.go:402-454 | a run is accepted step by step if and only if any two plans of one lifetime agree |
| LoadBalancer.ValidateRoutingRules | internal/catalog/loadbalancer.go:468-509 | accepts if and only if every rule has a condition, a priority in range and of its own, and fits the quota; the error names the first bad rule and its fault |
| LoadBalancer.RuleAloneIff | internal/catalog/loadbalancer.go:468-509 | a rule alone passes if and only if it has a host or path, a priority from 1 to 50000 and, on AWS, at most five condition values |
| LoadBalancer.RulesTogetherIff | internal/catalog/loadbalancer.go:468-509 | rules together pass if and only if each does alone and no two share a priority |
| LoadBalancer.ResolveRoutingRules | internal/catalog/loadbalancer.go:331-347 | the loop and the stable sort compute the resolved list |
| LoadBalancer.ResolvedCanonical | internal/catalog/loadbalancer.go:331-347 | for accepted rules the resolved list is strictly ascending by priority, a permutation of the trimmed input, and the same for every reordering |
| LoadBalancer.FirstMatchIsLeast | internal/catalog/loadbalancer.go:331-347 | the first rule matching any request is the least-priority match of the specification, and there is none only if no rule matches |
| LoadBalancer.LeastRuleApplies | internal/catalog/loadbalancer.go:331-347 | for every request on hosts, paths and admin ranges, the plan applied carries the conditions and the trimmed target of the least-priority rule whose own conditions meet it |
| LoadBalancer.ResolveListeners | internal/catalog/loadbalancer.go:225-236 | the listener loop and the stable sort by port |
| LoadBalancer.ListenersInPlan | internal/catalog/loadbalancer.go:225-236 | ascending ports, one entry per listener with its port, protocol, conditions and rules, and the written order kept on a port |
| LoadBalancer.ListenerOrderIff | internal/catalog/loadbalancer.go:225-236 | every reordering of the caller's listeners gives the same plan if and only if listeners on one port resolve alike |
| LoadBalancer.ListenerOrderMatters | internal/catalog/loadbalancer.go:234-236 | two listeners on one port whose order shows in the result |
| ObjectStorage.SanitiseBucketPrefix | internal/catalog/objectstorage.go:307-323 | the builder loop computes the sanitised prefix |
| ObjectStorage.SanitisedIsSafe | internal/catalog/objectstorage.go:307-323 | the result is over a-z, 0-9 and hyphen, with no leading, trailing or doubled hyphen |
| ObjectStorage.SanitisedFixedIff | internal/catalog/objectstorage.go:307-323 | exactly the safe prefixes are left alone, so sanitising is idempotent |
| ObjectStorage.AlnumsSurvive | internal/catalog/objectstorage.go:307-323 | every letter and digit survives, in order and in lower case |
| ObjectStorage.SanitisedParts | internal/catalog/objectstorage.go:307-323 | texts parted by other characters are sanitised apart and joined by one hyphen |
| ObjectStorage.DeriveBucketName | internal/catalog/objectstorage.go:287-304 | for every name 12 to 63 safe characters, ending in a hyphen and the full ten-character digest prefix |
| ObjectStorage.SeedInjective | internal/catalog/objectstorage.go:290-290 | two seeds are equal if and only if name, provider and region are, for providers and regions without a bar |
| ObjectStorage.PlacesGetTheirOwnBuckets | internal/catalog/objectstorage.go:279-304 | unless the digest collides on the two, bucket names are equal if and only if name, provider and region are |
| ObjectStorage.ResolveLifecycle | internal/catalog/objectstorage.go:330-359 | accepts if and only if the ids are present and distinct, the days non-negative and an action given; then the trimmed rules sorted by id |
| ObjectStorage.LifecycleCanonical | internal/catalog/objectstorage.go:330-359 | the resolved lifecycle is strictly ascending by id and the same for every reordering |
| ObjectStorage.LifecycleKeepsRules | internal/catalog/objectstorage.go:353-357 | the resolved list holds exactly the rules with trimmed id and prefix, their switch and each of their day counts as they were |
| DoBaseline.ChunkTags | internal/catalog/do_baseline.go:369-400 | the chunks concatenate to the tag list, all but the last hold five tags, none is empty, there are ceil(n/5), and each has the name of its place |
| DoBaseline.BaselineFirewalls | internal/catalog/do_baseline.go:363-400 | the firewalls of all services but the staging front end, then the one of the front end |
| DoBaseline.OtherTagsExact | internal/catalog/do_baseline.go:363-368 | a service's tag is chunked if and only if it is not the staging front end |
| DoBaseline.OtherTagsInOrder | internal/catalog/do_baseline.go:363-368 | the tags keep the order of the services |
| DoBaseline.ChunkNumbered | internal/catalog/do_baseline.go:373-376 | the number in a later chunk's name is its place |
| DoBaseline.ChunkNamesDistinct | internal/catalog/do_baseline.go:373-376 | no two chunks share a firewall name |
| DoBaseline.ChunkNameIsNotStaging | internal/catalog/do_baseline.go:373-377 | no chunk takes the front end's firewall name |
| Network.ContainmentIff | internal/catalog/network.go:190-199 | for blocks of one family the two checks hold if and only if every address of the subnet lies in the VPC block |
| Network.BlockIsRange | internal/catalog/network.go:190-199 | a block is a run of two to the remaining bits addresses, aligned, around its address |
| Network.ValidateSpec | internal/catalog/network.go:168-202 | accepts if and only if the header is valid and every subnet consists of VPC addresses only |
| Network.DeriveZones | internal/catalog/network.go:124-166 | one zone per subnet on the zonal providers, none on the others, in round-robin order |
| Network.WindowDistinct | internal/catalog/network.go:128-163 | any window no longer than the cycle has pairwise distinct zones |
| Network.ZonesBalanced | internal/catalog/network.go:128-163 | the use counts of any two zones differ by at most one |
| Network.UsesOfZone | internal/catalog/network.go:128-163 | how often each zone is used |
| Network.ZoneShape | internal/catalog/network.go:128-163 | each zone is the region's own, with the letter or number of the subnet's place in the cycle |
| Network.TranslateNetwork | internal/catalog/network.go:47-84 | succeeds if and only if the specification is valid and the region known; subnets keep their order and get the zone of their place |
| Network.PairSubnets | internal/catalog/network.go:73-84 | the pairing loop gives each subnet its name, address block and zone |
| Network.SubnetsKept | internal/catalog/network.go:73-84 | the subnets keep their order and blocks, under numbered names that extend the network's, with the zone of their place |
| Network.SubnetNamesDistinct | internal/catalog/network.go:75-77 | no two subnets of a network share a name |
| Detector.ToSet | internal/archmismatch/detector.go:293-299 | the set of the trimmed strings |
| Detector.DistinctCount | internal/archmismatch/detector.go:265-271 | the number of distinct trimmed strings |
| Detector.JaccardSimilarity | internal/archmismatch/detector.go:274-291 | the counting loop computes intersection over union of the trimmed sets |
| Detector.JaccardCounts | internal/archmismatch/detector.go:274-291 | the similarity times the size of the union is the size of the intersection; 1 for two empty sets |
| Detector.JaccardIsSimilarity | internal/archmismatch/detector.go:273-291 | the similarity lies in [0,1], is symmetric, and is 1 if and only if the sets are equal |
| Detector.JaccardTriangle | internal/archmismatch/detector.go:273-291 | J(a,c) >= J(a,b) + J(b,c) - 1 |
| Detector.FlaggedPairsBound | internal/archmismatch/detector.go:206-208 | two flagged pairs sharing a module bound the third pair by 2t - 1 |
| Detector.EvalCopiedLayout | internal/archmismatch/detector.go:202-222 | the nested loops report the flagged pairs in row order |
| Detector.CopiedPairsExact | internal/archmismatch/detector.go:202-222 | a pair is reported if and only if i < j and it is at or above the threshold; pairs come in strictly ascending order, so each once |
| Detector.EvalPrematureSplit | internal/archmismatch/detector.go:183-199 | the findings of the modules below the threshold, in order |
| Detector.SplitFindingsExact | internal/archmismatch/detector.go:183-199 | a module is reported if and only if it has fewer distinct resource types than the threshold |
| Detector.SplitCount | internal/archmismatch/detector.go:183-199 | as many findings as modules below the threshold |
| Detector.EvalCrossBoundary | internal/archmismatch/detector.go:225-262 | the findings of the forbidden tier edges, in order |
| Detector.CrossFindingsExact | internal/archmismatch/detector.go:236-260 | a dependency is reported if and only if both tiers are known and different and the edge is not allowed |
| Detector.CrossCount | internal/archmismatch/detector.go:236-260 | as many findings as crossing dependencies |
| Detector.TierOfIsLast | internal/archmismatch/detector.go:227-230 | a name's tier is that of the last module with the name |
| Detector.Detector.AddRule | internal/archmismatch/detector.go:152-154 | appends the rule |
| Detector.Detector.Analyze | internal/archmismatch/detector.go:163-180 | the findings of the enabled rules, in rule order |
| Detector.AnalysisMembers | internal/archmismatch/detector.go:163-180 | a finding is reported if and only if some enabled rule finds it |
| Detector.AnalysisExact | internal/archmismatch/detector.go:163-262 | a finding is reported if and only if an enabled premature-split rule has such a module, an enabled copied-layout rule such a pair, or an enabled cross-boundary rule such a dependency |
| Detector.AnalysisInOrder | internal/archmismatch/detector.go:163-180 | rules run one after the other, each once |
| Detector.CopiedReported | internal/archmismatch/detector.go:163-222 | every pair at or above an enabled rule's threshold is reported |
| Mitigation.AliasesAreNotMitigated | internal/catalog/mitigation.go:91-110 | a component the Vault alias takes over is never substituted by a VM first |
| HostPlacement.BindServiceHosts | internal/catalog/host_placement.go:10-42 | succeeds if and only if host names are distinct and each bound service has an exact single host and sealed bootstrap; components then say what they said, hosts with their scripts extended, on new payloads; the caller's payloads are not written |
| HostPlacement.HostableIff | internal/catalog/host_placement.go:10-42 | a list can be bound if and only if VM names are distinct, no component has a bootstrap without a host, and each that names a host is a data service placed on one counted, bare or bash VM with a sealed bash bootstrap |
| HostPlacement.ViewTells | internal/catalog/host_placement.go:32-38 | two components say the same if and only if they agree in every field, payloads included |
| HostPlacement.FillHosts | internal/catalog/host_placement.go:12-20 | the host map is built if and only if host names are distinct, and finds each host |
| HostPlacement.BindOne | internal/catalog/host_placement.go:21-39 | one step keeps the correspondence and fails exactly when the component cannot be placed |
| HostPlacement.AttachTo | internal/catalog/host_placement.go:32-38 | the clone's script is the old one extended by the bootstrap; nothing else changes |
| HostPlacement.ScriptIsJoined | internal/catalog/host_placement.go:36-37 | a host's script is its original, if any, followed by its bootstraps in declaration order, joined by newlines |
| HostPlacement.BootstrapsInOrder | internal/catalog/host_placement.go:21-39 | a host receives the bootstrap of every component that names it, each once and in declaration order |
| HostPlacement.HostScriptSealed | internal/catalog/host_placement.go:29-37 | a host that received a bootstrap ends with a script starting with the bash shebang |
| HostPlacement.StillCompatible | internal/catalog/host_placement.go:33-35 | checking the current script at each step is checking the original one |
| HostPlacement.SealedScriptSurvives | internal/catalog/render.go:467-491 | a bound script reads back literally from the VM heredoc |
| HostPlacement.HostIsPlain | internal/catalog/host_placement.go:28-31 | every hosted component has a host VM that is itself not hosted |
| BaselineTags.TfNameValid | internal/catalog/render.go:50-65 | every Terraform name is non-empty, over the allowed characters, and does not start with a digit |
| BaselineTags.TfNameFixedIff | internal/catalog/render.go:50-65 | exactly the valid names are left alone, so naming is idempotent |
| BaselineTags.TfNameFolds | internal/catalog/render.go:50-65 | names equal up to case give one resource name |
| BaselineTags.TfNamesAgreeIff | internal/catalog/render.go:50-65 | two names of one length give one resource name if and only if, case aside, they differ only in what shows as an underscore |
| BaselineTags.TagIsOwn | internal/catalog/assemble.go:636-642 | every plain VM leaves the pass with a non-empty tag other than the fleet tag in any case |
| BaselineTags.RefusedTagIff | internal/catalog/assemble.go:628-639 | the pass refuses exactly a plain VM without a name or with the fleet's tag in any case |
| BaselineTags.DefaultTagsAgreeIff | internal/catalog/assemble.go:640-642 | two default tags of an environment agree if and only if the Terraform names agree |
| BaselineTags.EnvironmentTagsAgreeIff | internal/catalog/assemble.go:640-642 | one name's default tags in two environments agree if and only if the environments' Terraform names do |
| BaselineTags.AuthorTagKept | internal/catalog/assemble.go:636-642 | a non-blank tag of the author's is kept, trimmed; only a blank one gives way to the default |
| BaselineTags.TagBaselineVMs | internal/catalog/assemble.go:624-647 | succeeds if and only if every plain VM has a name and no fleet tag; each gets its tag on a new payload, everything else is the caller's own |
| BaselineTags.CollectSelectors | internal/catalog/assemble.go:807-816 | the loop collects the firewall selectors |
| BaselineTags.SelectorsExact | internal/catalog/assemble.go:807-816 | a tag is selected if and only if some component carries it |
| BaselineTags.SelectorsMeaning | internal/catalog/assemble.go:807-816 | a tag is selected if and only if it is a scale group's own or the tag of a VM |
| BaselineTags.TaggedVMSelected | internal/catalog/assemble.go:624-647 | after the pass every plain VM's tag is a selector, non-empty and not the fleet's |
| Assemble.Plan | internal/catalog/assemble.go:699-726 | the planning loop decides whether some component needs a VM and whether some needs the network |
| Assemble.DeriveEgress | internal/catalog/securitybaseline.go:87-100 | baseline egress is derived if and only if some component is a VM, a scale group or mitigated |
| Assemble.WiringMatchesPlan | internal/catalog/assemble.go:716-725 | the planning switch lists exactly the types whose dispatch arm uses the network |
| Assemble.InferClusterName | internal/catalog/assemble.go:565-572 | the name of the first cluster component, empty if there is none or it has none |
| Assemble.DispatchAll | internal/catalog/assemble.go:834-1689 | the dispatch loop fails if and only if some component has an unknown placement, an unsupported type, no required configuration, no cluster, or does not translate; otherwise it emits the documents in component order and the union of the provider flags |
| Core.AssembleCore | internal/catalog/assemble.go:677-1740 | planning, the rendered network and firewall, dispatch and Vault nodes: exactly which environments pass, and their documents |
| Core.DispatchMatchesPlan | internal/catalog/assemble.go:707-725 | a component is rendered with the network if and only if the plan counted on it |
| Core.NetworkIffPlaced | internal/catalog/assemble.go:699-753 | the network document exists if and only if some document is placed in it, hosted services included |
| Core.PlacedAfterNetwork | internal/catalog/assemble.go:733-832 | every placed document follows the one network document, gets that network's own subnets, and follows the firewall it names |
| Core.VMsAreGuarded | internal/catalog/assemble.go:755-867 | every VM, native or substituted, is rendered with the environment's firewall and in the first subnet, a scale group from it on |
| Core.SpreadServices | internal/catalog/assemble.go:652-657 | databases, caches, load balancers, scale groups and clusters get every subnet natively, two distinct ones by default, and all but the clusters the firewall |
| Core.AttachedServices | internal/catalog/assemble.go:716-725 | what only attaches to the network gets its name, no subnets and no firewall |
| Core.RenderedOnce | internal/catalog/assemble.go:834-854 | a component has its one document if and only if it does not run on a host, and the documents keep the order of the components |
| Core.ServiceSays | internal/catalog/assemble.go:834-1689 | each service document is what the renderer made of its component, by the VM substitute if and only if it is self-hosted |
| Core.FlagsExact | internal/catalog/assemble.go:681-697 | an extra provider is pinned if and only if some natively rendered component pins it |
| Core.DispatchedIff | internal/catalog/assemble.go:834-1689 | an environment dispatches if and only if every component asks for a known placement and, off a host, translates on a VM or by a supported type's arm with its configuration block and its cluster |
| Core.FirewallSays | internal/catalog/assemble.go:803-824 | the firewall is the environment's and selects, on DigitalOcean alone, exactly the tags its droplets carry |
| Core.NetworkSays | internal/catalog/assemble.go:733-753 | the network document's subnets are the environment's, or two, each under its number |
| Core.NetworkPlanSays | internal/catalog/assemble.go:733-745 | the network drawn has the environment's provider, address range and subnets in order, and the defaults where they are left open |
| Core.VaultNodesLast | internal/catalog/assemble.go:1691-1740 | the Vault nodes come last, on DigitalOcean, one document each; three when the number is left open |
| Core.AliasHasCluster | internal/catalog/assemble.go:1116-1131 | on DigitalOcean a secrets or key component is never substituted by a VM, and in an environment that passes it has its own cluster name or that of the first cluster component |
| Core.BaselineFirewallIff | internal/catalog/securitybaseline.go:85-100 | there is a firewall document if and only if there is a VM and something is exposed or, under the baseline, some VM is there for more than its author's choice |
| Core.ForcedPlacementUnguarded | internal/catalog/securitybaseline.go:87-97 | a service placed on a VM by choice alone gets a VM and no firewall |
| Core.ForcedCacheOnAWS | internal/catalog/mitigation.go:73-89 | a cache on AWS is such a service |
| Core.TaggedVMGuarded | internal/catalog/assemble.go:755-832 | under the baseline on DigitalOcean the firewall is emitted whenever there is a plain VM and selects its tag |
| FixUp.DedupeZone | internal/catalog/assemble.go:1957-1971 | the zone variable is stripped once from each document and hoisted once |
| FixUp.DedupeKeepsNames | internal/catalog/assemble.go:1957-1971 | stripping and hoisting keep the set of declared names |
| FixUp.ZoneOnceIff | internal/catalog/assemble.go:1953-1971 | no inline declaration is left if and only if each renderer declares the zone variable at most once |
| FixUp.ZoneOnce | internal/catalog/assemble.go:1953-1971 | the zone variable is then declared once if some renderer declared it, and otherwise not |
| FixUp.StrippedCounts | internal/catalog/assemble.go:1957-1966 | no other name's declarations are touched |
| FixUp.DeclareVariables | internal/catalog/assemble.go:1836-1874 | the loop with its seen set adds what the plain rule without one adds, in reverse order before the documents |
| FixUp.AllScriptsExact | internal/catalog/assemble.go:1814-1821 | the text searched is made of each scale group's own script and each provider's, and nothing else |
| FixUp.VariablesExact | internal/catalog/assemble.go:1836-1874 | the variables added are exactly the listed, referenced and undeclared ones, each once, sensitive if and only if some service lists it as sensitive |
| FixUp.FirstIsSensitive | internal/catalog/assemble.go:1842-1850 | listing the sensitive names first makes a shared name sensitive |
| FixUp.DeclareSecrets | internal/catalog/assemble.go:1884-1894 | the loop adds the data sources of the rule and says whether any known leaf is referenced |
| FixUp.SecretsExact | internal/catalog/vault_datasource.go:135-144 | the data sources added are exactly those of the known, referenced and undeclared leaves, each once |
| FixUp.ProvidersDistinctIff | internal/catalog/assemble.go:1992-1997 | no name is pinned twice if and only if the environment is not Cloudflare's own with a component pinning Cloudflare |
| FixUp.ForeignIff | internal/catalog/assemble.go:1981-1990 | the providers that need no block are those of AWS, GCP, Azure and vSphere |
| Environment.OpenDocs | internal/catalog/assemble.go:1747-1794 | the zone, database-password and SSH-key declarations the topology asks for |
| Environment.FixUpDocs | internal/catalog/assemble.go:1747-1913 | the whole fix-up computes the final list the theorems below are about |
| Environment.Prepare | internal/catalog/assemble.go:616-648 | binding and tagging together, on clones |
| Environment.AssembleHCL | internal/catalog/assemble.go:616-1914 | renders exactly the accepted environments and changes nothing of the caller's |
| Guarantees.DeclaredOnceIff | internal/catalog/assemble.go:1742-1875 | every variable is declared once if and only if the renderers repeat no name but the zone variable's, that one at most once a document and in no other form, and declare none that the assembler supplies |
| Guarantees.DeclaredExactly | internal/catalog/assemble.go:1747-1875 | the declared names are the renderers', the supplied ones the topology asks for, and the referenced bootstrap variables |
| Guarantees.DeclaredMeaning | internal/catalog/assemble.go:1747-1875 | the same in the author's terms: the SSH keys for Vault nodes and scale groups on DigitalOcean, the password for databases, the listed variables the scripts reference |
| Guarantees.ReferencedIsDeclared | internal/catalog/assemble.go:1812-1875 | a known bootstrap variable referenced in any scale-group script is declared |
| Guarantees.BootstrapVariableDeclared | internal/catalog/assemble.go:1812-1875 | a listed variable referenced in a scale group's own script, or in the one it carries for any provider, is declared |
| Guarantees.BootstrapSecretRead | internal/catalog/assemble.go:1876-1912 | a known Vault path read in such a script has its data source, and the Vault provider is pinned |
| Guarantees.SuppliedDeclarations | internal/catalog/assemble.go:1747-1790 | the database password is declared sensitive, the SSH keys and the zone are declared, where the topology asks for them |
| Guarantees.AddedSensitivity | internal/catalog/assemble.go:1824-1872 | an added variable is sensitive if and only if some service lists it so, even if another lists it as plain |
| Guarantees.SecretsOnce | internal/catalog/vault_datasource.go:135-144 | data sources are unique if the renderers' are, and are the renderers' and the referenced known leaves |
| Guarantees.SecretsArePinned | internal/catalog/assemble.go:1884-1912 | adding a Vault data source pins the Vault provider |
| Guarantees.OneProvidersBlock | internal/catalog/assemble.go:1905-1912 | at most one providers block, first in the list, there if and only if it is needed |
| Guarantees.ProvidersBlockIff | internal/catalog/assemble.go:1905-1912 | the block is there if and only if the provider is not AWS, GCP, Azure or vSphere, a component pins Cloudflare, or a DigitalOcean script reads a known Vault path |
| Guarantees.DigitalOceanIsPinned | internal/catalog/assemble.go:1905-1912 | a DigitalOcean module always pins its provider's source |
| Guarantees.CloudflareDNSPinsTwice | internal/catalog/assemble.go:1979-1997 | in Cloudflare's own environment a DNS component makes the block pin one name twice |
| Guarantees.ModuleClosedIff | internal/catalog/assemble.go:1747-1875 | every reference in the final list is to a declared variable if and only if each renderer's references, the network's and firewall's included, are to variables a renderer declares, the topology supplies or the bootstraps list |
| Guarantees.ModuleClosed | internal/catalog/assemble.go:1747-1875 | so it is when each renderer references only its own declarations and what the assembler supplies for its kind |
| Guarantees.ServerlessOnAWSIsOpen | internal/catalog/render_macro.go:885-906 | an environment of one AWS function is not closed |
| Guarantees.FinalOrder | internal/catalog/assemble.go:1747-1913 | the fix-ups keep one network and every placed document after what it names |
| Guarantees.ProjectBound | internal/catalog/assemble.go:1900-1904 | on DigitalOcean a project is looked up if and only if one is named, and bound in one last document if and only if, besides, the rest holds a resource to bind |
| Guarantees.AssembledNetworkIffPlaced | internal/catalog/assemble.go:616-1914 | for every accepted environment the final list has a network if and only if something in it is placed |
| Guarantees.AssembledTags | internal/catalog/assemble.go:624-832 | every plain VM of the caller is selected by the final list's firewall by a tag of its own |
| Guarantees.AssembledOnce | internal/catalog/assemble.go:616-1914 | in the final list every component that does not run on a host has its one document, in the caller's order, and a hosted one has none |
| Guarantees.AssembledScripts | internal/catalog/host_placement.go:10-42 | a named host is rendered with its original script, if any, followed by the bootstraps bound to it in declaration order, newline-joined, and starting with the shebang if there are any |
| Guarantees.PreparedSays | internal/catalog/assemble.go:616-648 | binding and tagging change the script only of a named host and the tag only of a plain VM under the baseline, and nothing else |
| Guarantees.PreparedHostable | internal/catalog/host_placement.go:10-42 | a list that was bound can be bound again |

## Left out

- Resource text of every renderer, and the bash bootstraps: fixed templates; a rendered component is its declarations, references and pinned providers, and is taken to write no required_providers block itself.
- Declared names are records: the assembler's text search for a declaration inside other documents, and false matches inside script text, are not part of this model.
- The expression between the braces of a template sequence: the reader marks where a sequence opens and does not parse further.
- The heredoc's final newline counts as part of the value, as HCL has it; the source's scripts are compared with that newline added.
- Unicode: letter case and white space are those of ASCII.
- Rounding in the Jaccard similarity: reals are used.
- The live SKU check shells out to cloud command lines and is taken to pass.
- CSV and JSON decoding: loaders start from split records, and a header only has to be there; a record of the wrong width is reported at its own position, whereas the library may report it before earlier rows are in; the catalog is discarded in both cases.
- SHA-256: any function to 64 hexadecimal characters.
- Parsing of address text, and IPv4 addresses mapped into IPv6: blocks are values of one family.
- The library's stable sort is an insertion sort here; stability and order are proved, running time is not.
- Iteration order of a scale group's scripts by provider: any sequence order, and the theorems hold for each.
- The rules inside the security group: only whether any exist; the selectors, names, references and order of the firewall are modelled.
- Texts of error messages and of findings: errors are values naming the rule or row at fault, or just the failure.
- Health-check defaults, default filling, memory ladders, alias maps and advisory rules: single-branch facts.
- Provider names in mixed case: the assembler tests some exactly and folds others; the model keeps each test as it is written and the tag theorems are about the exact spelling.
- Guarantees.ModuleClosed: the condition on each renderer is one the renderers listed above do not meet; Guarantees.ModuleClosedIff says exactly when the module is closed.
- Guarantees.AssembledNetworkIffPlaced: takes the Vault node renderer to return at least one document.
- Assemble.DispatchAll: translating and rendering one component is a parameter that may fail.
