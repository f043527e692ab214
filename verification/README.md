# KubeZoo contract: a verified model

KubeZoo serves many tenants from one upstream Kubernetes cluster. This project
models what its contract library decides and stores, and proves what the rest of
the system relies on.

* **The protobuf codec** (`Varint`, `WireFields`, `Groups`, `Message`, `Acceptance`,
  `Generated`, `SortedKeys`, `TenantMessages`, `TenantMerging`, `NewerMessages`,
  `Overlays`, `EntryOverrun`, `TenantCodec`, `TenantObjects`, `QuotaMessages`,
  `QuotaLists`). The generated `Size`, `MarshalToSizedBuffer`, `Marshal` and
  `Unmarshal` methods are methods of classes over byte arrays and cursors, with 64-bit
  wrapping indices. Each is proved against a specification: an encoding function, and
  a decoder that takes a table of known fields. About the specification it is proved
  which inputs decode and to what, that values survive the wire, what decoding into a
  message that holds values replaces, merges and keeps, that concatenation is merge,
  that unknown fields are ignored, and that the flat group skipper accepts exactly a
  recursive grammar, which is that of the Protocol Buffers "Encoding" specification
  but for the field numbers (`Groups`, below).
* **The tenant translation layer** (`Names`, `Selectors`, `SharedLists`,
  `CustomResources`, `GroupKinds`). Names, namespaces, CRD names and field selectors on
  the way up, lists on the way back. The main result is a commuting diagram: a
  translated query over the shared list, filtered, is the query over the tenant's own
  view.
* **RBAC and asserted groups** (`Rbac`, `ServiceAccountRules`, `ServiceAccountGrants`,
  `ClusterWide`, `Impersonation`). What a ServiceAccount's rules are narrowed to and
  what they permit, which rules may be bound across the cluster, and which groups are
  asserted upstream for whom.
* **The informer factory** (`InformerFactory`, `FactorySteps`). The class, and a step
  system of any number of callers and goroutines with the lock, the marks, the
  shutdown flag and the wait group; invariants of every interleaving, and the locked
  sections as single actions.
* **The CRD index** (`CrdIndex`). A nested map that agrees with a scan of its list.

`dafny verify dfyconfig.toml` checks all of it.

Where the code does other than what is said of it, the model follows the code, and
the condition under which the claim holds is proved:

* The comment on `ClusterScopedRulesForSA` (pkg/util/tenantsa.go:84-98) says that the
  result holds only what the role asks for and only what the tenant may have.
  `narrowToAllowed` collects groups, resources and verbs apart, so it keeps the least
  product around the covered triples: `ProductMayExceedAllowed` is a role for which
  that is more than is allowed. And it drops the object names of the asked rules and
  does not look at those of the allowed ones: `NamesAreDropped` and `NamesAreIgnored`
  are a role and an allowed rule about one object whose result is about all.
  `ResultWithinAskedIff` and `ResultWithinAllowedIff` say exactly when each half of the
  comment holds, under RBAC matching with object names and subresources.
* The map loop of `TenantQuota.Unmarshal` bounds its reads by the input instead of by
  the entry (pkg/apis/tenant/v1alpha1/generated.pb.go:1047-1146), and then goes back to
  the end of the entry. `OverrunReadsTheNextField` is an accepted input where an
  unknown field, put between two fields, becomes a key. What the program itself
  writes is never such an input: `EncodingsDoNotOverrun`.
* `skipGenerated` (pkg/apis/tenant/v1alpha1/generated.pb.go:1562-1639) does not look at
  field numbers: it closes a group at any end tag, where the "Groups" section asks for
  the number of the start tag, and passes over a number that is not legal.
  `MismatchedGroupIsSkipped` is such an input; `StandardIffMatched` and
  `StandardIffScanned` say exactly when what is skipped is a field of the standard.
* The two directions of the group and kind resolver agree where every CRD is called
  after its group, which the API server sees to, and both ask for the same list;
  `DirectionsAgreeIff` has the exact condition, `IncoherentNamesDisagree` a case where
  a CRD is called otherwise.

Names are Dafny strings in the translation layer, which cuts and compares them, and
sequences of bytes in the codec, which measures them.

## Model

| member | source | states |
|---|---|---|
| Varint.DecodeVarint | pkg/apis/tenant/v1alpha1/generated.pb.go:795-810 | for every byte string and start index, the shift/or loop stores the base-128 value modulo its width, stops after the last byte, and fails exactly when the digits run past ten bytes or past the input |
| Varint.VarintOfTen | pkg/apis/tenant/v1alpha1/generated.pb.go:795-810 | on every input, which bytes are a varint and of which value, said by its digits; which overflow, and which are too short |
| Varint.EncodeVarintGenerated | pkg/apis/tenant/v1alpha1/generated.pb.go:378-388 | fills exactly the bytes before the offset with the base-128 digits of v and leaves every other byte of the buffer alone |
| Varint.SovCountsDigits | pkg/apis/tenant/v1alpha1/generated.pb.go:504-506 | the bit-length formula is the number of base-128 digits, 1 to 10 for every uint64 |
| Varint.ReadEncodedUint64 | pkg/apis/tenant/v1alpha1/generated.pb.go:378-388 | every uint64 written at any index of any input is read back, without meeting the overflow exit |
| Varint.Int32RoundTrip | pkg/apis/tenant/v1alpha1/generated.pb.go:125-139 | every int32 survives sign extension, ten-byte encoding and truncation; the negative ones take exactly ten bytes |
| Varint.AccumulateStep | pkg/apis/tenant/v1alpha1/generated.pb.go:804-806 | one turn of the wrapping or/shift accumulator adds one digit modulo the width |
| WireFields.SkipGenerated | pkg/apis/tenant/v1alpha1/generated.pb.go:1562-1639 | the loop with a depth counter agrees with the scan specification on every input, with 64-bit wrapping indices; it may answer more than the input holds only where the caller refuses the answer |
| WireFields.SkipPayload | pkg/apis/tenant/v1alpha1/generated.pb.go:1585-1627 | each wire type moves the wrapping index and the depth as the specification does |
| WireFields.SkipIffField | pkg/apis/tenant/v1alpha1/generated.pb.go:1562-1639 | skipping from i ends at j if and only if the bytes from i to j are one field of the recursive grammar: groups nested to any depth, closed by an end tag of any number, as the code has it |
| WireFields.PassField | pkg/apis/tenant/v1alpha1/generated.pb.go:1562-1639 | at any depth and before any continuation, a well-formed field is passed over whole |
| WireFields.SkippedField | pkg/apis/tenant/v1alpha1/generated.pb.go:1562-1639 | whatever is skipped parses as one well-formed field, which is produced, whatever its numbers |
| Groups.ParseIsUnique | pkg/apis/tenant/v1alpha1/generated.pb.go:1562-1639 | at one place of an input there is at most one well-formed field |
| Groups.StandardIffMatched | pkg/apis/tenant/v1alpha1/generated.pb.go:1562-1639 | the bytes from i to j are one field of the standard if and only if skipping from i ends at j and the one parse of them has legal field numbers and closes each group by its own |
| Groups.MismatchedGroupIsSkipped | pkg/apis/tenant/v1alpha1/generated.pb.go:1617-1623 | a concrete input that is skipped and is no field of the standard: the end of group 2 closes group 1 |
| Groups.StandardIffScanned | pkg/apis/tenant/v1alpha1/generated.pb.go:1562-1639 | and if and only if a scan that keeps the numbers of the open groups, where skipGenerated keeps their count, ends at j |
| Groups.MatchedIsSkipped | pkg/apis/tenant/v1alpha1/generated.pb.go:1562-1639 | that scan never ends elsewhere than skipping does |
| Generated.DecodeTag | pkg/apis/tenant/v1alpha1/generated.pb.go:795-819 | reads a tag and refuses end-group tags and field numbers that are not positive, as an int32 |
| Generated.DecodeLength | pkg/apis/tenant/v1alpha1/generated.pb.go:1024-1046 | reads a length and bounds the payload, a sum that wraps below zero included |
| Generated.SkipUnknown | pkg/apis/tenant/v1alpha1/generated.pb.go:851-864 | the default case passes over one field, within the bound it is given |
| Message.ConcatenationMerges | pkg/apis/tenant/v1alpha1/generated.pb.go:762-871 | Last One Wins: if x decodes into m giving m1, then x followed by any y decodes into m as y does into m1, same value or same error; for every message of the model |
| Message.UnknownFieldIgnored | pkg/apis/tenant/v1alpha1/generated.pb.go:851-864 | after any input that decodes, an unknown well-formed field changes nothing, whatever follows |
| Message.UnknownFieldAtBoundary | pkg/apis/tenant/v1alpha1/generated.pb.go:851-864 | inserting an unknown field at any field boundary of any input leaves the outcome as it was, for messages whose fields do not look past their payload |
| Message.BoundaryDecodes | pkg/apis/tenant/v1alpha1/generated.pb.go:762-871 | what stands before a boundary between fields is a message by itself |
| Acceptance.DecodesIff | pkg/apis/tenant/v1alpha1/generated.pb.go:762-871 | for every message but those with a map: an input decodes to a given value if and only if it is a sequence of well-formed fields which, known ones of the right wire type and unknown ones of any, make that value one after the other |
| Acceptance.StepAtField | pkg/apis/tenant/v1alpha1/generated.pb.go:766-864 | at a well-formed field the loop does what the field stands for, and refuses a known field of another wire type |
| TenantMerging.SpecsMerge | pkg/apis/tenant/v1alpha1/generated.pb.go:1168-1377 | concatenation is merge for TenantSpec |
| TenantMerging.QuotasMerge | pkg/apis/tenant/v1alpha1/generated.pb.go:989-1167 | concatenation is merge for TenantQuota, in spite of reads past an entry |
| TenantMerging.CapacitiesMerge | pkg/apis/tenant/v1alpha1/generated.pb.go:762-871 | concatenation is merge for TenantCapacity |
| TenantMerging.SuspensionsMerge | pkg/apis/tenant/v1alpha1/generated.pb.go:1448-1561 | concatenation is merge for TenantSuspension |
| TenantMerging.StatusesMerge | pkg/apis/tenant/v1alpha1/generated.pb.go:1378-1447 | concatenation is merge for TenantStatus |
| TenantMerging.TenantsMerge | pkg/apis/tenant/v1alpha1/generated.pb.go:613-761 | concatenation is merge for Tenant |
| TenantMerging.SpecSubmessagesMerge | pkg/apis/tenant/v1alpha1/generated.pb.go:1221-1356 | quota, suspension or capacity that comes twice is the field with both payloads joined: merged in place, not replaced |
| TenantMerging.ValidityPiecesMerge | pkg/apis/tenant/v1alpha1/generated.pb.go:1285-1320 | so is credentialValidity, given that the foreign duration merges |
| TenantMerging.TenantSubmessagesMerge | pkg/apis/tenant/v1alpha1/generated.pb.go:642-740 | so are spec and status of a Tenant, and its metadata given that the foreign one merges |
| TenantMerging.UnknownFieldInSpec | pkg/apis/tenant/v1alpha1/generated.pb.go:1357-1370 | a TenantSpec ignores any unknown field, groups included, at any boundary of any input |
| TenantMerging.NewerSpecIsRead | pkg/apis/tenant/v1alpha1/generated.pb.go:1168-1377 | a marshalled spec with one more unknown field between any two is read as the spec |
| Overlays.TenantTables | pkg/apis/tenant/v1alpha1/generated.pb.go:790-864 | which field numbers the tenant messages know, and whether as a varint or as bytes |
| Overlays.QuotaTables | pkg/apis/quota/v1alpha1/generated.pb.go:662-766 | the same for the quota messages |
| Overlays.CapacityLayout | pkg/apis/tenant/v1alpha1/generated.pb.go:120-141 | which field of a capacity stands under which tag byte |
| Overlays.SuspensionLayout | pkg/apis/tenant/v1alpha1/generated.pb.go:360-376 | the bytes of a suspension |
| Overlays.StatusLayout | pkg/apis/tenant/v1alpha1/generated.pb.go:329-343 | the bytes of a status |
| Overlays.EntryLayout | pkg/apis/tenant/v1alpha1/generated.pb.go:221-238 | the bytes of a map entry |
| Overlays.SpecLayout | pkg/apis/tenant/v1alpha1/generated.pb.go:257-312 | the bytes of a spec |
| Overlays.TenantLayout | pkg/apis/tenant/v1alpha1/generated.pb.go:67-103 | the bytes of a tenant |
| Overlays.ClusterQuotaLayout | pkg/apis/quota/v1alpha1/generated.pb.go:157-194 | the bytes of a ClusterResourceQuotaSpec |
| Overlays.RepeatedLayout | pkg/apis/quota/v1alpha1/generated.pb.go:110-194 | repeated fields stand in the order of their elements |
| Overlays.NameAppended | pkg/apis/quota/v1alpha1/generated.pb.go:732-763 | another name comes last, whatever names there are |
| Overlays.QuotaObjectLayout | pkg/apis/quota/v1alpha1/generated.pb.go:57-93 | the bytes of a ClusterResourceQuota |
| Overlays.QuotaListLayout | pkg/apis/quota/v1alpha1/generated.pb.go:110-140 | the bytes of a list |
| Overlays.ZeroValues | pkg/apis/tenant/v1alpha1/generated.pb.go:38-50 | the values from which a new object is decoded |
| Overlays.QuotaZeroValues | pkg/apis/quota/v1alpha1/generated.pb.go:34-40 | the same for the quota messages |
| Overlays.CapacityFieldsWin | pkg/apis/tenant/v1alpha1/generated.pb.go:790-850 | whatever a field of a capacity held, it takes the low 32 bits of the varint that comes, in any spelling; the other fields stay |
| Overlays.IdWins | pkg/apis/tenant/v1alpha1/generated.pb.go:1200-1215 | the same for the id of a spec |
| Overlays.OnlineWins | pkg/apis/tenant/v1alpha1/generated.pb.go:1407-1426 | and for the flag of a status, where anything but zero is true |
| Overlays.SuspensionFieldsWin | pkg/apis/tenant/v1alpha1/generated.pb.go:1477-1540 | either string of a suspension is replaced, the other stays |
| Overlays.CapacityOverlay | pkg/apis/tenant/v1alpha1/generated.pb.go:762-871 | a capacity decoded into another: the fields that the input has replace, the others stay |
| Overlays.CapacitiesOverlay | pkg/apis/tenant/v1alpha1/generated.pb.go:762-871 | Last One Wins: two capacities one after the other decode to the second laid over the first |
| Overlays.SuspensionOverlay | pkg/apis/tenant/v1alpha1/generated.pb.go:1448-1561 | a suspension decoded into another replaces it |
| Overlays.StatusOverlay | pkg/apis/tenant/v1alpha1/generated.pb.go:1378-1447 | so does a status |
| Overlays.QuotaOverlay | pkg/apis/tenant/v1alpha1/generated.pb.go:989-1167 | a quota decoded into another replaces the same keys and adds the others |
| Overlays.LastOfEntryWins | pkg/apis/tenant/v1alpha1/generated.pb.go:1047-1146 | of two keys and two values in an entry the last ones count, a value being read anew |
| Overlays.WireTypeOfKeyIgnored | pkg/apis/tenant/v1alpha1/generated.pb.go:1070-1101 | the entry loop does not look at the wire type of a key |
| Overlays.EmptyEntry | pkg/apis/tenant/v1alpha1/generated.pb.go:1047-1146 | an entry with neither stands for the empty key and the zero value |
| Overlays.SpecOverlay | pkg/apis/tenant/v1alpha1/generated.pb.go:1168-1377 | a spec decoded into another: id and suspension replaced, quota key by key, capacity field by field, validity merged; what the input lacks stays |
| Overlays.TenantOverlay | pkg/apis/tenant/v1alpha1/generated.pb.go:613-761 | a tenant decoded into another: metadata and spec merged, status replaced |
| Overlays.ClusterQuotaOverlay | pkg/apis/quota/v1alpha1/generated.pb.go:634-784 | a ClusterResourceQuotaSpec decoded into another: both submessages merged into what is there, the names appended |
| Overlays.QuotaStatusOverlay | pkg/apis/quota/v1alpha1/generated.pb.go:785-862 | a ClusterResourceQuotaStatus decoded into another is merged |
| Overlays.QuotaObjectOverlay | pkg/apis/quota/v1alpha1/generated.pb.go:368-516 | so are metadata, spec and status of a ClusterResourceQuota |
| Overlays.QuotaListOverlay | pkg/apis/quota/v1alpha1/generated.pb.go:517-633 | a list decoded into another: metadata merged, items appended |
| NewerMessages.InterleavedIsRead | pkg/apis/tenant/v1alpha1/generated.pb.go:851-864 | for every message: any number of unknown fields before, between and after its parts leave what is read as it was |
| NewerMessages.NewerEntryIsRead | pkg/apis/tenant/v1alpha1/generated.pb.go:1047-1146 | a map entry with any number of unknown fields anywhere in it is read as its key and value, up to its end |
| NewerMessages.NewerQuotaIsRead | pkg/apis/tenant/v1alpha1/generated.pb.go:989-1167 | a quota with any number of unknown fields, between the entries and inside them, is read as the quota |
| NewerMessages.NewerSuspensionIsRead | pkg/apis/tenant/v1alpha1/generated.pb.go:1448-1561 | the same for a suspension |
| NewerMessages.NewerCapacityIsRead | pkg/apis/tenant/v1alpha1/generated.pb.go:762-871 | the same for a capacity |
| NewerMessages.NewerSpecIsReadAtEveryDepth | pkg/apis/tenant/v1alpha1/generated.pb.go:1168-1377 | a spec with any number of unknown fields, in itself and at every depth inside it, is read as the spec |
| NewerMessages.SpecWithNothing | pkg/apis/tenant/v1alpha1/generated.pb.go:257-312 | with none added, these are the bytes that the program writes |
| EntryOverrun.AloneIffNoOverrun | pkg/apis/tenant/v1alpha1/generated.pb.go:1047-1146 | what stands before a boundary of a TenantQuota decodes by itself if and only if no map entry before it was read from bytes after it |
| EntryOverrun.UnknownFieldInQuota | pkg/apis/tenant/v1alpha1/generated.pb.go:1047-1161 | there, a TenantQuota ignores any unknown field |
| EntryOverrun.EncodingsDoNotOverrun | pkg/apis/tenant/v1alpha1/generated.pb.go:205-240 | in every marshalled quota, no entry is read past any boundary |
| EntryOverrun.NewerQuotaIsRead | pkg/apis/tenant/v1alpha1/generated.pb.go:989-1167 | so a marshalled quota with one more unknown field between any two entries is read as the quota |
| EntryOverrun.OverrunReadsTheNextField | pkg/apis/tenant/v1alpha1/generated.pb.go:1047-1146 | a concrete input on which it does not: an entry takes its key from the field after it, so an inserted unknown field becomes the key |
| EntryOverrun.OverrunMayBeHarmless | pkg/apis/tenant/v1alpha1/generated.pb.go:1047-1146 | and one, for quantity decoders that make the same of any one byte, on which an overrun does no harm whatever is inserted |
| EntryOverrun.EntryLoopCut | pkg/apis/tenant/v1alpha1/generated.pb.go:1053-1146 | with the input cut, the entry loop gives the same entry if it read only what is left, and an error if not |
| SortedKeys.SortedListing | pkg/apis/tenant/v1alpha1/generated.pb.go:216-220 | whatever order the map hands out its keys in, gathering and sorting them gives the one increasing listing |
| SortedKeys.LessEqIff | pkg/apis/tenant/v1alpha1/generated.pb.go:220 | the order of Go strings: by the first byte in which two differ |
| SortedKeys.SortStrings | pkg/apis/tenant/v1alpha1/generated.pb.go:220 | the sort used on the keys: sorted, and a permutation |
| SortedKeys.SortedIsListing | pkg/apis/tenant/v1alpha1/generated.pb.go:216-220 | a sorted sequence of the keys, each once, is unique |
| TenantMessages.CapacityRoundTrip | pkg/apis/tenant/v1alpha1/generated.pb.go:120-141 | nil and present int32 pointers survive the wire |
| TenantMessages.SuspensionRoundTrip | pkg/apis/tenant/v1alpha1/generated.pb.go:360-376 | both strings survive the wire |
| TenantMessages.StatusRoundTrip | pkg/apis/tenant/v1alpha1/generated.pb.go:329-343 | the flag survives the wire |
| TenantMessages.QuotaRoundTrip | pkg/apis/tenant/v1alpha1/generated.pb.go:205-240 | every map of quantities survives the wire |
| TenantMessages.SpecRoundTrip | pkg/apis/tenant/v1alpha1/generated.pb.go:257-312 | every TenantSpec survives the wire: nil stays nil, present stays present with its value; only the foreign codecs' own law is assumed |
| TenantMessages.TenantRoundTrip | pkg/apis/tenant/v1alpha1/generated.pb.go:67-103 | so does every Tenant |
| TenantMessages.QuotaIsStable | pkg/apis/tenant/v1alpha1/generated.pb.go:1047-1146 | decoding a TenantQuota does not depend on what follows the input, nor on where the input stands |
| TenantMessages.SpecIsStable | pkg/apis/tenant/v1alpha1/generated.pb.go:1168-1377 | nor does decoding a TenantSpec; and none of its fields looks past its payload |
| TenantMessages.TenantIsStable | pkg/apis/tenant/v1alpha1/generated.pb.go:613-761 | the same for Tenant |
| TenantCodec.TenantCapacity.Size | pkg/apis/tenant/v1alpha1/generated.pb.go:404-420 | predicts the exact length of the encoding |
| TenantCodec.TenantCapacity.MarshalToSizedBuffer | pkg/apis/tenant/v1alpha1/generated.pb.go:120-141 | in any buffer that is long enough, writes the encoding into the last Size() bytes before the end and nothing else |
| TenantCodec.TenantCapacity.Marshal | pkg/apis/tenant/v1alpha1/generated.pb.go:105-113 | returns exactly the encoding |
| TenantCodec.TenantCapacity.Unmarshal | pkg/apis/tenant/v1alpha1/generated.pb.go:762-871 | on every byte string terminates, stays inside it, and gives the object the specified value or an error exactly when one is specified |
| TenantCodec.TenantSuspension.Size | pkg/apis/tenant/v1alpha1/generated.pb.go:491-503 | predicts the exact length of the encoding |
| TenantCodec.TenantSuspension.MarshalToSizedBuffer | pkg/apis/tenant/v1alpha1/generated.pb.go:360-376 | in any buffer that is long enough, writes the encoding into the last Size() bytes before the end and nothing else |
| TenantCodec.TenantSuspension.Marshal | pkg/apis/tenant/v1alpha1/generated.pb.go:345-353 | returns exactly the encoding |
| TenantCodec.TenantSuspension.Unmarshal | pkg/apis/tenant/v1alpha1/generated.pb.go:1448-1561 | on every byte string terminates, stays inside it, and gives the object the specified value or an error exactly when one is specified |
| TenantCodec.TenantStatus.Size | pkg/apis/tenant/v1alpha1/generated.pb.go:481-490 | predicts the exact length of the encoding |
| TenantCodec.TenantStatus.MarshalToSizedBuffer | pkg/apis/tenant/v1alpha1/generated.pb.go:329-343 | in any buffer that is long enough, writes the encoding into the last Size() bytes before the end and nothing else |
| TenantCodec.TenantStatus.Unmarshal | pkg/apis/tenant/v1alpha1/generated.pb.go:1378-1447 | on every byte string terminates, stays inside it, and gives the object the specified value or an error exactly when one is specified |
| TenantCodec.TenantQuota.Size | pkg/apis/tenant/v1alpha1/generated.pb.go:439-456 | predicts the exact length of the encoding |
| TenantCodec.TenantQuota.MarshalToSizedBuffer | pkg/apis/tenant/v1alpha1/generated.pb.go:205-240 | in any buffer that is long enough, writes the encoding into the last Size() bytes before the end and nothing else; the same bytes for every order of map iteration |
| TenantCodec.TenantQuota.Unmarshal | pkg/apis/tenant/v1alpha1/generated.pb.go:989-1167 | on every byte string terminates, stays inside it, and gives the object the specified value or an error exactly when one is specified |
| TenantCodec.TenantSpec.Size | pkg/apis/tenant/v1alpha1/generated.pb.go:457-480 | predicts the exact length of the encoding |
| TenantCodec.TenantSpec.MarshalToSizedBuffer | pkg/apis/tenant/v1alpha1/generated.pb.go:257-312 | in any buffer that is long enough, writes the encoding into the last Size() bytes before the end and nothing else, nested length prefixes included |
| TenantCodec.TenantSpec.Marshal | pkg/apis/tenant/v1alpha1/generated.pb.go:242-250 | returns exactly the encoding |
| TenantCodec.TenantSpec.Unmarshal | pkg/apis/tenant/v1alpha1/generated.pb.go:1168-1377 | on every byte string terminates, stays inside it, and gives the object the specified value or an error exactly when one is specified |
| TenantCodec.TenantSpec.UnmarshalField | pkg/apis/tenant/v1alpha1/generated.pb.go:1171-1370 | one turn of the loop is one step of the specification, nil submessages allocated on the way |
| TenantCodec.TotalSizeOfOne | pkg/apis/tenant/v1alpha1/generated.pb.go:439-456 | the sum that Size computes does not depend on which key it takes next |
| TenantCodec.DecodeEntry | pkg/apis/tenant/v1alpha1/generated.pb.go:1047-1146 | the map entry loop, whose reads are bounded by the whole input, agrees with its specification on every input |
| TenantCodec.PrependEntry | pkg/apis/tenant/v1alpha1/generated.pb.go:221-238 | writes one map entry and its length, found from where the cursor stood |
| TenantCodec.MarshalUnmarshal | pkg/apis/tenant/v1alpha1/protobuf_test.go:29-90 | a spec marshalled and unmarshalled into a new object is the same spec |
| TenantObjects.TenantObject.Size | pkg/apis/tenant/v1alpha1/generated.pb.go:389-403 | predicts the exact length of the encoding |
| TenantObjects.TenantObject.MarshalToSizedBuffer | pkg/apis/tenant/v1alpha1/generated.pb.go:67-103 | in any buffer that is long enough, writes the encoding into the last Size() bytes before the end and nothing else |
| TenantObjects.TenantObject.Marshal | pkg/apis/tenant/v1alpha1/generated.pb.go:52-60 | returns exactly the encoding |
| TenantObjects.TenantObject.Unmarshal | pkg/apis/tenant/v1alpha1/generated.pb.go:613-761 | on every byte string terminates, stays inside it, and gives the object the specified value or an error exactly when one is specified |
| TenantObjects.MarshalUnmarshal | pkg/apis/tenant/v1alpha1/protobuf_test.go:42-90 | the repository's round-trip test, for every tenant |
| QuotaMessages.NamespacesRead | pkg/apis/quota/v1alpha1/generated.pb.go:735-766 | names are appended in wire order |
| QuotaMessages.ClusterQuotaRoundTrip | pkg/apis/quota/v1alpha1/generated.pb.go:157-194 | every ClusterResourceQuotaSpec survives the wire, its names in order although they are written last to first |
| QuotaMessages.ClusterQuotaIsStable | pkg/apis/quota/v1alpha1/generated.pb.go:634-784 | its decoding does not depend on what surrounds the input, so concatenation merges and unknown fields are ignored |
| QuotaMessages.ClusterResourceQuotaSpec.Size | pkg/apis/quota/v1alpha1/generated.pb.go:272-292 | predicts the exact length of the encoding |
| QuotaMessages.ClusterResourceQuotaSpec.MarshalToSizedBuffer | pkg/apis/quota/v1alpha1/generated.pb.go:157-194 | in any buffer that is long enough, writes the encoding into the last Size() bytes before the end and nothing else |
| QuotaMessages.ClusterResourceQuotaSpec.Marshal | pkg/apis/quota/v1alpha1/generated.pb.go:142-150 | returns exactly the encoding |
| QuotaMessages.ClusterResourceQuotaSpec.Unmarshal | pkg/apis/quota/v1alpha1/generated.pb.go:634-784 | on every byte string terminates, stays inside it, and gives the object the specified value or an error exactly when one is specified |
| QuotaLists.QuotaStatusRoundTrip | pkg/apis/quota/v1alpha1/generated.pb.go:211-226 | every ClusterResourceQuotaStatus survives the wire |
| QuotaLists.QuotaObjectRoundTrip | pkg/apis/quota/v1alpha1/generated.pb.go:57-93 | every ClusterResourceQuota survives the wire |
| QuotaLists.QuotaListRoundTrip | pkg/apis/quota/v1alpha1/generated.pb.go:110-140 | so does every list of them, in order |
| QuotaLists.QuotaListsConcatenate | pkg/apis/quota/v1alpha1/generated.pb.go:517-633 | the encodings of two lists, one after the other, decode to the items of both and the merged metadata |
| QuotaLists.ListIsStable | pkg/apis/quota/v1alpha1/generated.pb.go:517-633 | decoding a list does not depend on what surrounds the input |
| QuotaLists.ClusterResourceQuotaStatus.Size | pkg/apis/quota/v1alpha1/generated.pb.go:293-302 | predicts the exact length of the encoding |
| QuotaLists.ClusterResourceQuotaStatus.MarshalToSizedBuffer | pkg/apis/quota/v1alpha1/generated.pb.go:211-226 | in any buffer that is long enough, writes the encoding into the last Size() bytes before the end and nothing else |
| QuotaLists.ClusterResourceQuotaStatus.Unmarshal | pkg/apis/quota/v1alpha1/generated.pb.go:785-862 | on every byte string terminates, stays inside it, and gives the object the specified value or an error exactly when one is specified |
| QuotaLists.ClusterResourceQuota.Size | pkg/apis/quota/v1alpha1/generated.pb.go:240-253 | predicts the exact length of the encoding |
| QuotaLists.ClusterResourceQuota.MarshalToSizedBuffer | pkg/apis/quota/v1alpha1/generated.pb.go:57-93 | in any buffer that is long enough, writes the encoding into the last Size() bytes before the end and nothing else, nested length prefixes included |
| QuotaLists.ClusterResourceQuota.Marshal | pkg/apis/quota/v1alpha1/generated.pb.go:42-50 | returns exactly the encoding |
| QuotaLists.ClusterResourceQuota.Unmarshal | pkg/apis/quota/v1alpha1/generated.pb.go:368-516 | on every byte string terminates, stays inside it, and gives the object the specified value or an error exactly when one is specified |
| QuotaLists.ClusterResourceQuotaList.Size | pkg/apis/quota/v1alpha1/generated.pb.go:255-271 | predicts the exact length of the encoding |
| QuotaLists.ClusterResourceQuotaList.MarshalToSizedBuffer | pkg/apis/quota/v1alpha1/generated.pb.go:110-140 | in any buffer that is long enough, writes the encoding into the last Size() bytes before the end and nothing else |
| QuotaLists.ClusterResourceQuotaList.Marshal | pkg/apis/quota/v1alpha1/generated.pb.go:95-103 | returns exactly the encoding |
| QuotaLists.ClusterResourceQuotaList.Unmarshal | pkg/apis/quota/v1alpha1/generated.pb.go:517-633 | on every byte string terminates, stays inside it, and gives the object the specified value or an error exactly when one is specified |
| Names.UpstreamNamespaceSpelled | pkg/util/util.go:78-106 | which string each namespace becomes, what trimming gives back, and which names are accepted |
| Names.IdsAreSixLong | pkg/util/util.go:153-161 | an id is recovered exactly from six characters, a dash and something more |
| Names.CRDNameSpelled | pkg/util/util.go:251-268 | the name of a CRD, of version v1 or v1beta1, takes the prefix after its first dot |
| Names.OtherNameSpelled | pkg/util/util.go:262-268 | the name of anything else takes it in front |
| Names.CRDNameBelongsSpelled | pkg/util/util.go:193-227 | a CRD name is a tenant's exactly if the part after its first dot begins with the prefix |
| Names.BelongsSpelled | pkg/util/util.go:193-241 | a CRD, of either version, belongs by its name after the first dot, a namespaced object by its namespace, any other by its name |
| Names.ObjectsArePartitioned | pkg/util/util.go:193-227 | no upstream object belongs to two tenants, in any scope, CRDs included |
| Names.ConvertedBelongs | pkg/util/util.go:251-268 | what the converters produce for a tenant belongs to it |
| Names.ConversionInjective | pkg/util/util.go:251-268 | two names become the same upstream name of a kind if and only if they are the same name of one tenant, or the same CRD name without a dot, which is left alone for every tenant |
| Names.CRDConversionInjective | pkg/util/util.go:251-257 | the same for CRD names, whose prefix goes into the middle: exactly when two of them become one |
| Names.TenantIDRecovered | pkg/util/util.go:153-161 | an id is recovered from a string if and only if the string is the prefix of that id with something after it, dashes in the id or not |
| Names.UpstreamNamespaceIdempotent | pkg/util/util.go:78-86 | translating a namespace twice is translating it once |
| Names.AcceptedIffReachable | pkg/util/util.go:94-102 | a name is accepted if and only if the namespace stored for it is addressed by it |
| Names.TrimInvertsUpstream | pkg/util/util.go:104-106 | trimming undoes the translation on the accepted names |
| Names.UpstreamNamespaceInjective | pkg/util/util.go:78-102 | on the accepted names the translation is injective |
| Names.StoredNamespacesAreAddressed | pkg/util/util.go:59-106 | in every run of creates and deletes, every stored namespace answers to its tenant's name and to its own, and to no other name of any tenant |
| Selectors.TermSpelled | pkg/util/util.go:544-557 | which terms are rewritten, and into what; none without a tenant |
| Selectors.NormalTermSpelled | pkg/util/util.go:549-552 | a namespace written with the prefix means the one without it |
| Selectors.BlanksDropped | pkg/util/util.go:558-563 | dropping the terms without field and value, as the selector library does, changes nothing but those terms |
| Selectors.ListOptions.ConvertInternalListOptions | pkg/util/util.go:538-568 | each term of the selector that has a field or a value keeps field and operator and has its value translated, in place; no selector stays none; the v1 options, or the failure, are what the conversion makes of the rewritten ones |
| Selectors.FilterUnstructuredList | pkg/util/util.go:571-582 | keeps the tenant's objects, in order |
| Selectors.TermKept | pkg/util/util.go:538-568 | a translated term holds of an upstream object exactly when the term as meant holds of the tenant's view of it |
| Selectors.SelectorKept | pkg/util/util.go:538-568 | so does a translated conjunction |
| Selectors.ImageOfView | pkg/util/util.go:193-268 | an upstream object is the image of its own view |
| Selectors.QueriesCommute | pkg/util/util.go:538-582 | for every upstream list whose objects of the tenant are placed, every scope and selector: selecting upstream with the translated selector and filtering gives, in order, the images of what the selector as meant picks from the tenant's view |
| SharedLists.CommutesIffPlaced | pkg/util/util.go:538-582 | for every list: that is so for every selector if and only if the tenant's objects on the list are placed |
| SharedLists.PlacedIff | pkg/util/util.go:78-106 | an object of the tenant is placed if and only if it is the image of its view and not called by the bare prefix |
| SharedLists.QueriesCommuteInRuns | pkg/util/util.go:59-106 | after every run of creates and deletes under the guard, it is so for every query over objects in the stored namespaces |
| Selectors.PlainSelector | pkg/util/util.go:538-568 | a selector whose namespaces do not carry the prefix is meant as written |
| GroupKinds.CheckGroupKind | pkg/util/util.go:443-499 | a native kind is what the table says; otherwise the tenant's first CRD for the looked-up group and kind decides; outbound, if it has none, the first CRD of anyone in the second listing does; inbound there is none then; either listing may fail |
| GroupKinds.ListCRDsForTenant | pkg/util/util.go:425-437 | the tenant's CRDs in order, or the lister's failure |
| GroupKinds.DirectionsAgreeIff | pkg/util/util.go:443-499 | for a kind that is not native, the answer for g from the tenant's side equals the answer for the prefixed g from upstream's if and only if the first listing fails or has a CRD of the tenant's for them, or the second does not fail and has none at all |
| GroupKinds.DirectionsAgree | pkg/util/util.go:443-499 | so they agree, on hits and misses, where CRDs are called after their groups and the listings are the same |
| GroupKinds.IncoherentNamesDisagree | pkg/util/util.go:443-499 | a concrete list on which they do not |
| GroupKinds.OwnGroupsCarryThePrefix | pkg/util/util.go:443-499 | upstream, only prefixed groups are called the tenant's |
| GroupKinds.OthersDoNotMatter | pkg/util/util.go:443-499 | two lists that have the tenant's CRDs in the same order, at whatever positions and among whatever others, give the tenant the same answers |
| GroupKinds.OthersInserted | pkg/util/util.go:443-499 | a run of others' CRDs can come or go anywhere in the list |
| GroupKinds.OthersReordered | pkg/util/util.go:443-499 | and can change places with whatever comes after it |
| ServiceAccountRules.NarrowToAllowed | pkg/util/tenantsa.go:117-142 | keeps exactly the groups, resources and verbs of the covered triples, each once, `*` on the asked side taken as it stands; nothing if and only if nothing is covered |
| ServiceAccountRules.ClusterScopedRulesForSA | pkg/util/tenantsa.go:104-113 | the narrowed rules in order, the empty ones left out |
| ServiceAccountRules.NarrowedInOrder | pkg/util/tenantsa.go:104-113 | by position: each rule of the result is what is kept of an asked rule, in order, and of the asked rules passed over nothing is covered |
| ServiceAccountRules.AllowedByLoop | pkg/util/tenantsa.go:150-159 | some allowed rule covers group, resource and verb |
| ServiceAccountRules.AppendUnique | pkg/util/tenantsa.go:170-177 | adds one element as to a set and keeps the list free of duplicates |
| ServiceAccountRules.KeptIsLeastProduct | pkg/util/tenantsa.go:117-142 | the kept rule is the least group by resource by verb product that holds the covered triples, and lies within the asked one |
| ServiceAccountRules.EverythingAllowed | pkg/util/tenantsa.go:144-168 | an allowed rule of `*` lets every asked rule through whole |
| ServiceAccountRules.AskedStarNeedsStar | pkg/util/tenantsa.go:144-168 | what is covered is covered entry by entry, by the entry itself or by `*` on the allowed side, so `*` is asked for in vain without it |
| ServiceAccountRules.KeptCoveredByAsked | pkg/util/tenantsa.go:117-142 | by the library's own test, which looks at group, resource and verb only, the kept rule covers nothing the asked rule does not |
| ServiceAccountRules.KeptCoveredByAllowedIff | pkg/util/tenantsa.go:117-159 | by the same test it covers nothing that is not allowed if and only if the covered triples are a product |
| ServiceAccountRules.SingleResourceCovered | pkg/util/tenantsa.go:117-159 | which is so when the asked rule names one group and one resource |
| ServiceAccountRules.ResultCoveredIff | pkg/util/tenantsa.go:104-159 | the same for the whole result: it covers nothing that is not allowed if and only if the covered triples of every asked rule are a product |
| ServiceAccountRules.ResultCovered | pkg/util/tenantsa.go:104-159 | by the same test, the whole result covers nothing that was not asked for, and nothing that is not allowed when each asked rule names one group and one resource |
| ServiceAccountRules.NarrowingIsMonotone | pkg/util/tenantsa.go:117-142 | more allowed rules never take anything away |
| ServiceAccountRules.NarrowingIsIdempotent | pkg/util/tenantsa.go:117-142 | narrowing again changes nothing, as sets |
| ServiceAccountGrants.PermitsWithinIff | pkg/util/tenantsa.go:126-141 | under RBAC matching, object names and subresources included, a rule that names no objects stays within a list of rules if and only if each triple of its product is matched by one of them that names none |
| ServiceAccountGrants.KeptWithinAskedIff | pkg/util/tenantsa.go:117-142 | under RBAC matching the kept rule permits nothing the asked rule does not if and only if the asked rule names no objects |
| ServiceAccountGrants.ResultWithinIff | pkg/util/tenantsa.go:84-142 | the whole result permits nothing that a given list of rules does not if and only if every mixture of the covered triples of each asked rule is matched by a rule of the list that names no objects |
| ServiceAccountGrants.ResultWithinAllowedIff | pkg/util/tenantsa.go:91-98 | the exact condition of the second half of the comment: nothing but what the tenant may have |
| ServiceAccountGrants.ResultWithinAskedIff | pkg/util/tenantsa.go:84-91 | the exact condition of the first half: nothing but what the role asks for |
| ServiceAccountGrants.ServiceAccountIsConfined | pkg/util/tenantsa.go:84-142 | the first half holds of every role that names no objects; the second, where the allowed rules name none and each rule of the role names one group and one resource |
| ServiceAccountGrants.NamesAreDropped | pkg/util/tenantsa.go:84-142 | a concrete role about one object whose result permits every other object of the kind |
| ServiceAccountGrants.NamesAreIgnored | pkg/util/tenantsa.go:84-159 | a concrete allowed rule about one object for which the result permits every other |
| ServiceAccountGrants.ProductMayExceedAllowed | pkg/util/tenantsa.go:84-142 | a concrete role of one rule, and allowed rules, none of which names objects, for which the result permits what is not allowed |
| ClusterWide.RulesSafeForClusterWideBinding | pkg/util/clusterwide.go:60-68 | returns the safe rules in order |
| ClusterWide.RuleIsTenantOwned | pkg/util/clusterwide.go:72-90 | no URLs, at least one group, and every group the tenant's |
| ClusterWide.SafeRulesInOrder | pkg/util/clusterwide.go:60-68 | the result is the exact subsequence of the safe rules, by position |
| ClusterWide.FilteringIsIdempotent | pkg/util/clusterwide.go:60-68 | filtering twice is filtering once |
| ClusterWide.NothingForNoTenant | pkg/util/clusterwide.go:98-113 | an empty id owns nothing |
| ClusterWide.KeptIffConfined | pkg/util/clusterwide.go:72-113 | a rule is kept if and only if it grants no URLs and the groups it names, or covers with a `*`, are some and all carry the tenant's prefix; its resources and verbs do not matter |
| ClusterWide.SafeRulesReachOwnGroups | pkg/util/clusterwide.go:60-113 | every group that the result names or covers with a `*` carries the prefix |
| ClusterWide.SafeRulesPermitOwnGroups | pkg/util/clusterwide.go:60-113 | so every request that the result permits under RBAC matching is for a group that carries it |
| ClusterWide.TenantsReachDisjointGroups | pkg/util/clusterwide.go:60-113 | whatever two tenants write, no group is named or covered by both results |
| Impersonation.ImpersonationGroups | pkg/util/util.go:751-784 | the groups that are not the gateway's, in order, followed by the asserted ones |
| Impersonation.ForwardedIff | pkg/util/util.go:751-784 | a group of the gateway's own goes up if and only if it is asserted, any other if and only if it came in: what came in has no bearing on the first |
| Impersonation.AdminGroupsIff | pkg/util/util.go:751-804 | any tenant's proxied group goes up exactly for that tenant's own credential; the role author's exactly when it also writes a ClusterRole |
| Impersonation.ServiceAccountGroupIff | pkg/util/util.go:764-779 | an account's group goes up exactly when the request authenticated as that account, in its own tenant |
| Impersonation.ProxiedGroupSpelled | pkg/util/util.go:700-784 | the tenant's group goes up exactly for the user named after the first value of the extra field "tenant" |
| Impersonation.RoleAuthorSpelled | pkg/util/util.go:770-804 | kubezoo:role-author goes up exactly for that user creating, updating or patching clusterroles of rbac.authorization.k8s.io |
| Impersonation.OnlyClusterRoleWrites | pkg/util/util.go:686-692 | not for clusterrolebindings, and not for reads or deletes |
| Impersonation.AccountGroupSpelled | pkg/util/tenantsa.go:50-82 | which user name gets which group, spelled out |
| Impersonation.NoOtherGroup | pkg/util/util.go:751-784 | no other group of the gateway's own goes up, and every other group exactly if it came in |
| Impersonation.ForwardingIsIdempotent | pkg/util/util.go:751-784 | what went up and comes in again goes up unchanged |
| Impersonation.ParsedIff | pkg/util/tenantsa.go:62-82 | exactly which user names parse, and to what |
| Impersonation.GroupOfInjective | pkg/util/tenantsa.go:50-82 | two user names that parse never share a group |
| Impersonation.GroupRead | pkg/util/tenantsa.go:50-53 | the group of an account determines tenant, namespace and name |
| Impersonation.EitherNameOfTheNamespace | pkg/util/tenantsa.go:41-53 | passing the tenant's name of the namespace or upstream's comes to the same group if and only if the name is one tenants may create |
| Impersonation.AssertedKindsDiffer | pkg/util/util.go:660-732 | the three kinds of asserted group never collide |
| Impersonation.OutsidersOfJoined | pkg/util/util.go:754-761 | dropping works group by group: order and repetitions are kept |
| InformerFactory.SharedInformerFactory.InformerFor | pkg/generated/informers/externalversions/factory.go:227-251 | the registered informer if there is one, and then nothing changes; otherwise what newFunc makes of the type's own resync period, or of the default one, with the factory's transform if that is set, and it is registered |
| InformerFactory.SharedInformerFactory.StartWithContext | pkg/generated/informers/externalversions/factory.go:152-168 | launches exactly the registered informers not yet started, each once, whatever the order of the map, and counts them; after Shutdown does nothing |
| InformerFactory.SharedInformerFactory.Shutdown | pkg/generated/informers/externalversions/factory.go:170-174 | sets the flag and nothing else |
| InformerFactory.SharedInformerFactory.SyncedInformers | pkg/generated/informers/externalversions/factory.go:187-199 | a snapshot of exactly the started informers |
| InformerFactory.SyncResult | pkg/generated/informers/externalversions/factory.go:208-222 | reports each informer of the snapshot, and a failure if and only if one has not synced |
| FactorySteps.StepKeepsInv | pkg/generated/informers/externalversions/factory.go:152-251 | every step of every caller and goroutine keeps the invariant, and only ever grows what is registered, launched and answered |
| FactorySteps.SafeAlways | pkg/generated/informers/externalversions/factory.go:41-60 | in every state of every run: no type launched twice, what was launched is what is registered, started within registered, the wait group counts the goroutines |
| FactorySteps.SafeFromThenOn | pkg/generated/informers/externalversions/factory.go:152-251 | between any two states of a run: a registered informer stays, all callers for a type are given the same one, nothing is launched once the flag is set or while anyone waits, and once some Shutdown has returned no informer runs |
| FactorySteps.StartIsAtomic | pkg/generated/informers/externalversions/factory.go:152-168 | a Start interleaved in any way with other callers does what it does alone |
| FactorySteps.InformerForIsAtomic | pkg/generated/informers/externalversions/factory.go:227-251 | so does an InformerFor |
| FactorySteps.ShutdownIsAtomic | pkg/generated/informers/externalversions/factory.go:170-174 | so does the locked part of Shutdown |
| FactorySteps.StartAfterShutdown | pkg/generated/informers/externalversions/factory.go:152-174 | in every run, a Start by anyone after a Shutdown by anyone has set the flag does what the method does alone and is over with the lock free, and what had been launched by the time of the Shutdown is all that has been launched after it |
| FactorySteps.HolderCanMove | pkg/generated/informers/externalversions/factory.go:152-251 | no deadlock: whoever holds the lock has a step to take |
| FactorySteps.HolderAdvances | pkg/generated/informers/externalversions/factory.go:152-251 | and each such step brings the release nearer |
| FactorySteps.WaitEnds | pkg/generated/informers/externalversions/factory.go:175-177 | Shutdown can return as soon as, and only when, no goroutine is left; until then some goroutine can move on |
| FactorySteps.WaitIsBounded | pkg/generated/informers/externalversions/factory.go:170-177 | in every run, from the flag on, the goroutines can make exactly as many moves as are left, and Shutdown can return when they have made them |
| FactorySteps.NothingAddsToTheWait | pkg/generated/informers/externalversions/factory.go:170-177 | after the flag is set no step adds to what Shutdown waits for, and each move of a goroutine takes from it |
| CrdIndex.NewCustomGroupResourcesMap | pkg/util/crd.go:26-36 | the nested map answers every group and plural name as the list does, the last namesake winning, and holds no group besides |
| CrdIndex.LastIff | pkg/util/crd.go:26-36 | which CRD that is: the one with that group and plural name that has no later namesake |
| CrdIndex.HasGroup | pkg/util/crd.go:39-41 | some CRD of the list has the group |
| CrdIndex.HasResource | pkg/util/crd.go:44-51 | some CRD of the list has the plural name |
| CrdIndex.HasGroupResource | pkg/util/crd.go:54-56 | some CRD of the list has both |
| CrdIndex.HasGroupVersion | pkg/util/crd.go:59-71 | some CRD of the group without a later namesake serves the version |
| CrdIndex.HasGroupVersionResource | pkg/util/crd.go:74-85 | the CRD of that group and plural name without a later namesake serves the version |

## Left out

- UnknownFieldInQuota: one way only. That what stands before the boundary decodes by itself is proved to be equivalent to the absence of overruns (`AloneIffNoOverrun`). Whether a field inserted after an overrun is felt depends on what the quantity's own decoder makes of the bytes misread: `OverrunReadsTheNextField` and `OverrunMayBeHarmless` are a case of each.
- Unmarshal: the value of an object after a failed Unmarshal is not specified, and `io.ErrUnexpectedEOF` and `ErrInvalidLengthGenerated` are told apart only up to `SameError`: where the specification finds the input too short, the program says the second if its index wrapped below zero.
- Marshal: encodings longer than a Go slice can be are excluded by `requires`, and so is overflow of Size itself; a foreign message's marshal error is not modelled.
- SpecRoundTrip: assumes of Quantity, Duration, ObjectMeta, ListMeta, LabelSelector, ResourceQuotaSpec and ResourceQuotaStatus that their own unmarshalling into a zero value undoes their marshalling; their code is not part of this model. A nil and an empty map are one value.
- UnmarshalItem: the items of a list are kept as values, as the structs in a Go slice are, and put into an object to be marshalled or unmarshalled; that this happens in place in the slice is not captured.
- TenantList, whose messages repeat the shape of ClusterResourceQuotaList; MarshalTo, Reset, String and the unused sozGenerated; methods called on a nil receiver.
- TenantQuota.Marshal, TenantStatus.Marshal and ClusterResourceQuotaStatus.Marshal, which only make the buffer, as the other Marshal methods do.
- PermittedBy: RBAC matching itself is not part of the cited files; groups, resources with `*` and with a subresource, verbs and object names are matched as the Kubernetes API server documents it. Requests for paths are left out: no kept rule has any.
- SortStrings: sorts by insertion; how the Go library sorts is not part of this model.
- ConvertedBelongs: objects are records of the fields the translation reads; a failing meta.Accessor and the difference between typed and unstructured objects are not modelled.
- ConvertInternalListOptions: the selector is the list of its terms; the parser of selectors and the error values are not modelled. The conversion to v1 options is a parameter.
- View and Image: how a tenant's view of an object is made is not part of the cited files, since the package that converts objects is not part of this model; these two functions are the model's own reading of it, the inverse of the name and namespace functions of pkg/util/util.go.
- CheckGroupKind: the table of native kinds is a parameter; of its contents only that no group has a dash is assumed, in the lemmas that say so.
- ImpersonationGroups: the context is a record of the user's extra fields and the request info; the warning it logs is left out.
- RulesSafeForClusterWideBinding: rules are values, so that it hands out deep copies rather than the originals is not captured.
- NarrowToAllowed: the order of the kept groups, resources and verbs is not stated, only that each is there once.
- Shutdown: in the class, only the part before the wait; the wait, and a goroutine that ends, are steps of `FactorySteps`. The release of the informer name, cache sync waiting and the options of the constructor are left out.
- SafeFromThenOn: goroutines are interleaved step by step under sequential consistency; the Go memory model and fairness of the scheduler are not part of this model.
- HasGroup: like the other queries of the index, stated for a map that indexes some list, as the constructor makes them; maps put together otherwise, with nil entries, are not covered.
- Certificates, kubeconfig files, the dynamic client, clientsets, listers, the other informer wrappers, deep copies, defaults, registration, OpenAPI data and the error text rewriting of pkg/util/errors.go: input and output, library calls or copies of fields.
- ValidateTenantName, RemoveString, ContainString, the discovery helpers, the reserved and projected names and the patch markers of pkg/util/util.go: small and independent of the rest.
