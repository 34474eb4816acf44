# TaxonAPI core, modelled in Dafny

TaxonAPI is a KBase service. It answers questions about Taxon objects held in a
KBase workspace: a taxon's parent and children, its scientific lineage, its
name, identifiers and aliases, its object info, history and provenance. It also
has an aggregate `get_all_data` call. All of this logic lives in the class
`TaxonAPI` in `lib/TaxonAPI/TaxonAPIImpl.py`, and this project models that class.

The workspace is modelled as an immutable value, `Store.Workspace`. It holds:

- the objects, each with its eleven-position info tuple and its taxon data;
- the referrer listing of each reference;
- the type translation, as a function from a list of raw type strings to a map;
- the version history of each object;
- the provenance actions of each object.

With an immutable store, the memoising `get_object` is a plain map lookup. The
exceptions the modelled code raises on the data it is given become a
`Common.Error` inside a `Common.Result`: a reference that is not stored, a
missing key, a malformed reference, a non-numeric id, the `get_parent` return
check on a null parent, and the `str()` keyword error of `get_version`. Errors
occur in the order the code meets them. Transport errors and the errors that
null or ill-typed stored values would raise are not modelled (see "Left out").

The modules follow the structure of the class:

- `Text` models the Python string operations the class uses, with their proofs:
  - `str.split` on one character, and its inverse `join`;
  - `str.strip()`, using Python's whitespace set;
  - `'%d'` formatting;
  - `int()` on a run of digits.
- `Store` models the workspace: `get_object` and `get_data`, and the `'%d/%d'`
  reference formats.
- `Info` models `make_hash` and the calls that return its records: `get_info`,
  `get_history` and `get_name`.
- `References` models the reference parsers `get_id` and `get_version`.
- `Referrers` models three operations:
  - `get_referrers`: two loops that fill a dict of lists, keyed by translated
    type. The dict's insertion order is kept in `ReferrerMap.types`.
  - `get_reffers_type`: a loop that concatenates the accepted buckets.
  - `get_children` and `get_genome_annotations`, which call it.
- `Lineage` models two operations:
  - `get_decorated_scientific_lineage`: a `while True` walk up the parent links,
    then a reverse, then dropping the last entry.
  - `get_decorated_children`.
- `TaxonApi` models the single-field getters, `get_scientific_lineage`,
  `get_provenance` (nested loops over the renaming table) and `get_all_data`.

The source has no cycle guard on the lineage walk. The walk therefore needs a
ranking: a ghost function `rank: string -> nat` that decreases from each stored
object to the parent the walk would step to from it (`Lineage.ChainRanked`).
The ranking is asked of every stored object, not only of those the walk from
the given reference reaches. A store that holds a parent cycle anywhere, even
one this walk never enters, is therefore outside the model. The requirement
applies only where the walk runs. For `get_all_data` it applies only when the
decorated-lineage flag is on.

Four behaviours of the code are easy to miss:

- **Lineage entries.** The docstring of `get_decorated_scientific_lineage`
  (lib/TaxonAPI/TaxonAPIImpl.py:607-611) describes a list that starts at the
  root and goes on down to the given taxon. The code instead pairs the *name* of
  each node with the reference of that node's *parent*, not with the node's own
  reference. After the reverse and the drop, the start taxon's own name is gone.
  The first entry carries the reference of the node at which the walk stopped:
  a node named "root", a node without a name, or a node whose parent is missing
  or null. See `Lineage.DecoratedLineageLinks` and
  `Lineage.DecoratedLineageExample`.
- **`get_parent` on a null parent.** A parent key that holds null is returned
  as is, and the generated `isinstance` check then raises
  (lib/TaxonAPI/TaxonAPIImpl.py:128-130). See `TaxonApi.GetParent`.
- **`scientific_lineage` in `get_all_data`.** The docstring
  (lib/TaxonAPI/TaxonAPIImpl.py:529-530) declares a list of strings, but the
  code copies the stored `;`-separated string as is (:567). See
  `TaxonApi.AllDataAgreesWithGetters`.
- **The `get_all_data` flags.** The docstring documents each flag as a boolean
  with "0 = false, other = true" (lib/TaxonAPI/TaxonAPIImpl.py:519-523), but the
  code tests `== 1` (:562, :586, :591). So a flag of 2 leaves
  `decorated_scientific_lineage` and `decorated_children` out, and keeps
  `children` in. See `TaxonApi.On` and `TaxonApi.AllDataAgreesWithGetters`.

## Model

| member | source | states |
|---|---|---|
| Store.GetObject | lib/TaxonAPI/TaxonAPIImpl.py:34-40 | Succeeds exactly when the reference is stored, with the stored object; otherwise the workspace's not-found error for that reference |
| Store.GetData | lib/TaxonAPI/TaxonAPIImpl.py:42-44 | The data part of the stored object; the same not-found error otherwise |
| Store.RefStringPieces | lib/TaxonAPI/TaxonAPIImpl.py:84 | `'%d/%d' % (ws, obj)` splits on '/' back into exactly the two formatted numbers |
| Store.VersionedRefStringPieces | lib/TaxonAPI/TaxonAPIImpl.py:93 | `'%d/%d/%d'` splits on '/' back into exactly the three formatted numbers |
| Text.Split | lib/TaxonAPI/TaxonAPIImpl.py:456 | `str.split(sep)` yields one more piece than there are separators |
| Text.SplitJoin | lib/TaxonAPI/TaxonAPIImpl.py:456 | Joining the pieces of a split with the separator gives back the original string |
| Text.JoinSplit | lib/TaxonAPI/TaxonAPIImpl.py:456 | Splitting a join of separator-free pieces gives back exactly those pieces |
| Text.SplitPiecesAreSeparatorFree | lib/TaxonAPI/TaxonAPIImpl.py:188 | No piece of a split contains the separator |
| Text.SplitHeadIsPrefix | lib/TaxonAPI/TaxonAPIImpl.py:70 | `split(sep)[0]` is the longest separator-free prefix of the string |
| Text.Strip | lib/TaxonAPI/TaxonAPIImpl.py:188 | `strip()` is no longer than its input, neither starts nor ends with whitespace, and is empty exactly when the input is all whitespace |
| Text.StripRemovesOnlyOuterSpace | lib/TaxonAPI/TaxonAPIImpl.py:188 | The stripped text is a contiguous slice of the input; only whitespace lies before and after it |
| Text.StripIdempotent | lib/TaxonAPI/TaxonAPIImpl.py:188 | Stripping twice is stripping once |
| Text.IntToString | lib/TaxonAPI/TaxonAPIImpl.py:84 | `'%d'` is non-empty, starts with '-' exactly for negative numbers, and is otherwise all digits |
| Text.ParseNat | lib/TaxonAPI/TaxonAPIImpl.py:459 | `int()` on a piece succeeds exactly when the piece is a non-empty run of decimal digits |
| Text.ParseNatToString | lib/TaxonAPI/TaxonAPIImpl.py:459 | `int('%d' % n) == n` for every natural n |
| Text.NatToStringLeadingDigit | lib/TaxonAPI/TaxonAPIImpl.py:84 | `'%d'` of a natural starts with '0' exactly when the number is 0 |
| Text.IntToStringReadsBack | lib/TaxonAPI/TaxonAPIImpl.py:84 | `'%d'` of any integer reads back to its value (after the sign for a negative one) and has no leading zero except for 0 itself |
| Info.MakeHash | lib/TaxonAPI/TaxonAPIImpl.py:75-94 | Metadata is null exactly when the tuple's metadata map is empty, and is otherwise that map unchanged. The two reference strings split into the formatted workspace id, object id and version. Every other field is copied from its position |
| Info.MakeHashExample | lib/TaxonAPI/TaxonAPIImpl.py:75-94 | For object 523209, version 1, workspace 1779, with empty metadata: references '1779/523209' and '1779/523209/1', metadata null |
| Info.GetInfo | lib/TaxonAPI/TaxonAPIImpl.py:339-340 | Succeeds exactly when the object is stored, with `make_hash` of the stored info tuple, from which that tuple is recovered unchanged; the not-found error otherwise |
| Info.GetName | lib/TaxonAPI/TaxonAPIImpl.py:479 | Position 1 of the stored info tuple, or the not-found error for that reference |
| Info.GetHistory | lib/TaxonAPI/TaxonAPIImpl.py:370-372 | Succeeds exactly when the workspace has a history for the reference, else the not-found error. The result is `make_hash` of each listed version, in order, each recovering that version's tuple |
| References.GetId | lib/TaxonAPI/TaxonAPIImpl.py:456-459 | A reference without 1 or 2 '/' is rejected as invalid. Otherwise it succeeds exactly when piece 1 is a run of digits, with that piece's decimal value, and fails with that piece otherwise. A result is never negative |
| References.GetIdOfFormattedReference | lib/TaxonAPI/TaxonAPIImpl.py:456-459 | `get_id` reads back the object id that `make_hash` wrote into either reference string |
| References.GetIdExample | lib/TaxonAPI/TaxonAPIImpl.py:456-459 | `get_id('1779/523209/1') == 523209` |
| References.GetVersion | lib/TaxonAPI/TaxonAPIImpl.py:499-505 | As written: three pieces give piece 2 verbatim. Two pieces fetch the object, then raise TypeError (or the not-found error first). Any other count is invalid |
| References.GetVersionCorrected | lib/TaxonAPI/TaxonAPIImpl.py:499-505 | As intended: two pieces give the stored version as a decimal string, which `int()` reads back. Otherwise it agrees with the code |
| References.GetVersionOfFormattedReference | lib/TaxonAPI/TaxonAPIImpl.py:502-503 | The versioned reference `make_hash` builds gives back its version string under both readings |
| References.GetVersionTwoPieceDiscrepancy | lib/TaxonAPI/TaxonAPIImpl.py:500-501 | On '1779/523209', a stored object at version 1, the code raises while the intended reading answers '1' |
| Referrers.FirstUntranslated | lib/TaxonAPI/TaxonAPIImpl.py:59 | The KeyError key is absent exactly when every raw type has a translation |
| Referrers.FirstUntranslatedAt | lib/TaxonAPI/TaxonAPIImpl.py:58-59 | The KeyError is raised for the first referrer whose raw type lacks a translation |
| Referrers.GroupValid | lib/TaxonAPI/TaxonAPIImpl.py:53-63 | The dict lists each key once, and its key order holds exactly its keys |
| Referrers.GroupBuckets | lib/TaxonAPI/TaxonAPIImpl.py:58-63 | A key is present exactly when some referrer's type translates to it. Its list is the versioned references of exactly those referrers, in listing order |
| Referrers.FirstIndex | lib/TaxonAPI/TaxonAPIImpl.py:60-61 | The index of the first referrer whose type translates to a key: that referrer has the key, and no earlier one does |
| Referrers.GroupKeysOccur | lib/TaxonAPI/TaxonAPIImpl.py:60-61 | A key is in the dict exactly when some referrer's type translates to it |
| Referrers.GroupKeyOrder | lib/TaxonAPI/TaxonAPIImpl.py:60-61 | The dict's keys are in the order of their first occurrence among the referrers |
| Referrers.GroupConcat | lib/TaxonAPI/TaxonAPIImpl.py:50-73 | The kept buckets, concatenated in key order, are a permutation of the referrers' versioned references whose translated type is kept |
| Referrers.UpasWhereAll | lib/TaxonAPI/TaxonAPIImpl.py:55-63 | Selecting every type selects one reference per referrer |
| Referrers.GroupTotalSize | lib/TaxonAPI/TaxonAPIImpl.py:55-63 | The buckets together hold exactly as many references as there are referrers |
| Referrers.UpasWhereIncludes | lib/TaxonAPI/TaxonAPIImpl.py:58-63 | Every referrer with a kept type contributes its versioned reference |
| Referrers.UpasWhereOnlyKept | lib/TaxonAPI/TaxonAPIImpl.py:69-71 | Everything selected comes from a referrer with a kept type |
| Referrers.UpasWhereMember | lib/TaxonAPI/TaxonAPIImpl.py:69-71 | A reference is selected exactly when some referrer with a kept type has it |
| Referrers.UpasWhereSameFilter | lib/TaxonAPI/TaxonAPIImpl.py:70 | The selection depends only on which types are accepted |
| Referrers.ConcatExtend | lib/TaxonAPI/TaxonAPIImpl.py:63 | Appending to a present key's list adds the new entry to the selection exactly when that key is kept |
| Referrers.ConcatIgnoresOthers | lib/TaxonAPI/TaxonAPIImpl.py:69-71 | A list under a key outside the key order does not change the selection |
| Referrers.TypePrefix | lib/TaxonAPI/TaxonAPIImpl.py:70 | `split('-')[0]` is a '-'-free prefix of the type, followed by '-' when shorter |
| Referrers.TypePrefixIs | lib/TaxonAPI/TaxonAPIImpl.py:70 | A type's prefix is p exactly when the type is p or starts with p followed by '-' |
| Referrers.GetReferrers | lib/TaxonAPI/TaxonAPIImpl.py:50-64 | Not found for an unlisted reference. KeyError for the first untranslated raw type. Otherwise the dict built by one append per referrer in listing order, which is valid |
| Referrers.ReferrersOfType | lib/TaxonAPI/TaxonAPIImpl.py:66-73 | Succeeds exactly when the referrers are listed and all translated. The result is a permutation of the versioned references of the referrers whose type prefix is accepted |
| Referrers.GetChildren | lib/TaxonAPI/TaxonAPIImpl.py:144 | The result is a permutation of the versioned references of referrers of type `KBaseGenomeAnnotations.Taxon` or `KBaseGenomeAnnotations.Taxon-…` |
| Referrers.GetGenomeAnnotations | lib/TaxonAPI/TaxonAPIImpl.py:166 | The same for the Genome and GenomeAnnotation types, versioned or not |
| Lineage.Step | lib/TaxonAPI/TaxonAPIImpl.py:627-636 | A turn of the walk appends an entry exactly when the node has a non-null parent key, a scientific name, and that name is not "root". The entry pairs the parent's reference with the node's name |
| Lineage.WalkIsChain | lib/TaxonAPI/TaxonAPIImpl.py:620-645 | A successful walk is a chain: every visited node is stored, each entry is the step of the node before it, and the last node stops the walk |
| Lineage.ChainIsWalk | lib/TaxonAPI/TaxonAPIImpl.py:620-645 | Conversely, the chain from a reference is exactly what the walk returns |
| Lineage.ChainCons | lib/TaxonAPI/TaxonAPIImpl.py:636-643 | An entry followed by the chain from its parent is the chain from the node |
| Lineage.WalkAvoidsRoot | lib/TaxonAPI/TaxonAPIImpl.py:631 | No entry of the walk carries the name "root" |
| Lineage.Reverse | lib/TaxonAPI/TaxonAPIImpl.py:647 | `list.reverse()`: same length, element k is element n-1-k of the input |
| Lineage.DropLast | lib/TaxonAPI/TaxonAPIImpl.py:648 | `[:-1]`: everything but the last element, and the empty list for an empty list |
| Lineage.DecoratedScientificLineage | lib/TaxonAPI/TaxonAPIImpl.py:617-648 | The loop returns the walk's entries reversed, less the last one, or the walk's workspace error |
| Lineage.DecoratedLineageDropsStart | lib/TaxonAPI/TaxonAPIImpl.py:647-648 | The lineage is the walk less its first entry, root end first. The dropped entry carries the start taxon's own name. A walk of at most one entry gives an empty lineage |
| Lineage.ChainLink | lib/TaxonAPI/TaxonAPIImpl.py:627-636 | In a chain, the node an entry points to has the next entry's reference as its parent and the next entry's name as its name |
| Lineage.DecoratedLineageLinks | lib/TaxonAPI/TaxonAPIImpl.py:627-648 | Entry k+1's reference is a stored taxon whose parent is entry k's reference and whose name is entry k's name. No entry is named "root" |
| Lineage.DecoratedLineageExample | lib/TaxonAPI/TaxonAPIImpl.py:617-648 | For leaf → A → B → R, with R named "root": the walk appends (A, Leaf), (B, nA), (R, nB), and the lineage is [(R, nB), (B, nA)] |
| Lineage.DecorateAll | lib/TaxonAPI/TaxonAPIImpl.py:675-679 | Decoration succeeds exactly when every child is stored and has a scientific name. It then pairs each child reference with that name, in order |
| Lineage.DecorateFailurePersists | lib/TaxonAPI/TaxonAPIImpl.py:675-679 | The first failing child decides the error |
| Lineage.GetDecoratedChildren | lib/TaxonAPI/TaxonAPIImpl.py:671-681 | The loop returns the children, each with its scientific name, or the first error met |
| TaxonApi.GetParent | lib/TaxonAPI/TaxonAPIImpl.py:123-130 | The parent reference; "" when the key is missing. A null parent fails the return-type check. An unstored reference is not found |
| TaxonApi.Required | lib/TaxonAPI/TaxonAPIImpl.py:209 | A subscript on a required key gives its value, or KeyError naming the key |
| TaxonApi.GetScientificName | lib/TaxonAPI/TaxonAPIImpl.py:208-209 | The stored scientific name, or KeyError('scientific_name') when the key is missing; the not-found error for an unstored reference |
| TaxonApi.GetTaxonomicId | lib/TaxonAPI/TaxonAPIImpl.py:230-231 | The stored taxonomy id, or KeyError('taxonomy_id') when the key is missing; the not-found error for an unstored reference |
| TaxonApi.GetKingdom | lib/TaxonAPI/TaxonAPIImpl.py:250-251 | The stored kingdom, or KeyError('kingdom') when the key is missing; the not-found error for an unstored reference |
| TaxonApi.GetDomain | lib/TaxonAPI/TaxonAPIImpl.py:270-271 | The stored domain, or KeyError('domain') when the key is missing; the not-found error for an unstored reference |
| TaxonApi.GetGeneticCode | lib/TaxonAPI/TaxonAPIImpl.py:290-291 | The stored genetic code, or KeyError('genetic_code') when the key is missing; the not-found error for an unstored reference |
| TaxonApi.GetAliases | lib/TaxonAPI/TaxonAPIImpl.py:310-311 | The stored aliases, or [] when the key is missing; the not-found error for an unstored reference, and no other error |
| TaxonApi.StripAll | lib/TaxonAPI/TaxonAPIImpl.py:188 | Each piece is stripped, in order |
| TaxonApi.GetScientificLineage | lib/TaxonAPI/TaxonAPIImpl.py:187-188 | The not-found error for an unstored reference; KeyError('scientific_lineage') when the key is missing. Otherwise the stripped ';'-separated pieces of the stored string, one per piece, in order |
| TaxonApi.ScientificLineageUnits | lib/TaxonAPI/TaxonAPIImpl.py:188 | No unit contains ';', and none starts or ends with whitespace |
| TaxonApi.ScientificLineageOfJoin | lib/TaxonAPI/TaxonAPIImpl.py:188 | A lineage stored as stripped, ';'-free units joined by ';' comes back unit for unit |
| TaxonApi.CopyActionContents | lib/TaxonAPI/TaxonAPIImpl.py:427-434 | A renamed action holds a name exactly when its workspace key is present with a value other than an empty list, and holds that value. It holds no other name |
| TaxonApi.CopyKeysDistinct | lib/TaxonAPI/TaxonAPIImpl.py:410-424 | The renaming table has fourteen rows with distinct names |
| TaxonApi.GetProvenance | lib/TaxonAPI/TaxonAPIImpl.py:408-436 | One renamed action per recorded action, in the same order; not found for an unrecorded reference |
| TaxonApi.GetAllData | lib/TaxonAPI/TaxonAPIImpl.py:549-593 | The field-by-field construction gives exactly the aggregate record, or the first error in the code's order |
| TaxonApi.AllDataSucceeds | lib/TaxonAPI/TaxonAPIImpl.py:552-593 | `get_all_data` succeeds exactly when these all hold: the object is stored; children resolve (or are excluded); the five required keys are present; and each requested decoration succeeds |
| TaxonApi.AllDataAgreesWithGetters | lib/TaxonAPI/TaxonAPIImpl.py:562-593 | Each single-valued field equals its getter's answer. `scientific_lineage` is the stored string, unsplit; its split-and-strip is `get_scientific_lineage`'s answer. Kingdom is null exactly when `get_kingdom` fails. The children key is absent exactly when `exclude_children == 1`. Each decorated key is present exactly when its flag is 1 |
| TaxonApi.AllDataParentAndAliases | lib/TaxonAPI/TaxonAPIImpl.py:555-582 | A missing parent key gives `get_parent` "" but `get_all_data` null. A null parent fails `get_parent` but gives null. `get_all_data` copies the stored aliases as they are: missing aliases give `get_aliases` [] but `get_all_data` null |

## Left out

- Transport: the JSON-RPC server, the Java client and its generated beans, and authentication are not part of this model.
- The workspace client: its five calls are the fields of `Store.Workspace`, given as inputs. Their transport errors other than not-found are not modelled.
- The `lru_cache` on `get_object` and `translate_to_MD5_types`: with an immutable workspace, a cached call equals an uncached one, so eviction is not modelled.
- The `translate_to_MD5_types` wrapper: `get_referrers` does not use it.
- The constructor, the logger, the `print` calls in `get_all_data`, and `status`: they configure output or report metadata and compute nothing.
- The no_data flag of `get_object`: the model returns the same stored object either way, and `get_info` and `get_name` read only its info.
- The generated `isinstance` checks on return values: they hold by typing. The exception is `get_parent` on a null parent, which is modelled.
- Null values of the other taxon fields: `TaxonData` has no null for them, only present or missing. A stored null name, kingdom, domain, id, genetic code or aliases would make the `isinstance` check raise ValueError, and a null lineage would make `split` raise; those errors are not modelled. Nor are the paths where a null passes through without an error: `get_all_data` copying a null lineage, name, id, domain or genetic code into its record, and the lineage walk and `get_decorated_children` recording a null name as an entry.
- References.GetId: reads only a non-empty run of ASCII decimal digits. Python's `int()` also accepts a sign, surrounding whitespace, underscores and non-ASCII digits.
- TaxonApi.GetProvenance: gives each action as a map, so the insertion order of the output dict's keys is not modelled.
- Lineage.DecoratedScientificLineage: assumes a ranking that decreases from every stored object to its parent, not only along the chain the walk follows. So a store with a parent cycle anywhere is excluded, even one this walk never reaches. On a cyclic chain the code loops forever, and the model has nothing to say about that case.
- Provenance and taxon values are typed (`ProvValue`, `TaxonData`), so ill-typed data held by the workspace is not modelled.

## Findings

| source | as written | input that shows it | evidently intended | confidence | as-written member | corrected member |
|---|---|---|---|---|---|---|
| lib/TaxonAPI/TaxonAPIImpl.py:500-501 | For a two-piece reference, `get_version` passes the keyword `no_data` to `str()` rather than to `get_object`. `str()` accepts no such keyword, so the call raises TypeError | `get_version('1779/523209')` on a stored object at version 1 | Fetch the object's info without its data and return its version (position 4) as a decimal string, here '1' | not executed | References.GetVersion | References.GetVersionCorrected |
