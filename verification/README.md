# Device bookkeeping of the Harvester PCI devices controller

This project models the parts of the controller that keep state, rewrite lists in place, or turn
devices into text and back, and proves what they guarantee over all inputs and all runs. The API
server, the host and the GPU are plain state that steps read and write.

| module | component |
|---|---|
| `Text`, `Machine` | the Go string functions used below and their laws; machine entries and map orders |
| `MigModel`, `MigTheorems`, `MigController` | MIG instances: admission of edits, reconcile step, GPU commands |
| `MigBound`, `MigOrder`, `MigSync` | exactly when the bound of seven is kept, the commands are sorted, and "synced" means that the specification is met |
| `MigLaws`, `MigCommands` | which edits take effect, what a reconcile reports, how long a specification stays locked, how many commands an operation takes |
| `MigListing`, `MigTables`, `MigReading` | reading the tables the GPU tool prints, in any layout, and when they cannot be read |
| `UsbIds`, `UsbIdsTheorems`, `UsbFiles` | the usb.ids parser with its shared objects, a printer for it, whole files, and which lines are refused |
| `DevicePlugin`, `PluginHealth` | the PCI device plugin: devices, IOMMU map, health messages in flight and what they amount to |
| `Allocation` | `Allocate`, the environment text, and the controller that reads it back |
| `SpecPatch`, `Recording` | writing allocated names into a virtual machine's specification; which names are recorded and when they suffice |
| `IommuClosure`, `IommuPatch` | completing a machine's host devices to whole IOMMU groups |
| `GpuPatch` | the JSON Patch that should move GPUs to host devices (RFC 6902) |
| `Annotation`, `JsonPointer` | the allocation annotation, its patch and index (RFC 6901, RFC 6902) |
| `Permitted` | KubeVirt's permitted-device list over a shared backing array |
| `PciInventory`, `PciFields`, `UsbInventory`, `UsbInventoryTheorems`, `UsbClaims` | the inventory reconcilers, and the claims of USB devices |
| `Override` | the override resource name of claims that disable pooling |
| `Names`, `SocketName` | object names, index keys, resource names that fit a socket path |

Code that changes things step by step is a class or a method with loops, proved equal to a function
over values; the theorems are about those functions. Failures of GPU commands are an `Outage`: the
number of executor commands that still succeed, so every point of failure within a reconcile is
covered. Choices that Go leaves open (map iteration order, list order, order of message delivery)
are parameters or nondeterministic steps, and the theorems hold for all of them.

Where an intended property fails, the code is kept as it is and the exact condition is proved:

- The MIG admission rule adds up all requests, but the controller creates the positive ones, and for
  a repeated profile ID the last positive request once per entry. Every run keeps the bound of seven
  if edits are `Bounded` (a sum of at most seven means at most seven commands), and for every
  specification that is not, a run exceeds it (`BoundIsExact`).
- The comment in the source promises sorted profiles, but the code only converts the type: the
  commands are in ascending order if and only if the specification lists its positive requests so
  (`SortedExactly`, `SmallProfileComesFirst`).
- "synced" compares the recorded status with the GPU and not with the specification. A reconcile that
  ends synced means that the specification is met if and only if the record shows it (`SyncedExactly`);
  in every run, if and only if its commands are, profile by profile, what the GPU held when the record
  was last written, so after an enabling those of the specification enabled (`RunSynced`).
  `EarlyEditIsReportedSynced` is one way to differ.
- Health messages of a plugin are unordered. The order in which they are taken does not matter if
  and only if no known device has a healthy and an unhealthy message pending (`ConfluentExactly`);
  an add followed at once by a remove has both (`RaceKeepsRemovedDeviceHealthy`). Runs without such
  a conflict always end with exactly the active devices healthy. A count of zero can be trusted if
  and only if no device is left active or an active one is healthy already (`DroppedOnlyWhenInactive`).
- `Allocate` fills one response object for all containers of a request, so every container is told
  the addresses of all; each is told its own if and only if there is at most one container or none
  names a device of the plugin (`OwnDevicesExactly`).
- The IOMMU completion lists a missing device once per entry in its group. If the claim cache lags,
  the second claim for it fails; the webhook succeeds whatever the cache shows if and only if no
  unclaimed missing device is in the group of two entries (`AlwaysSucceedsExactly`).
- The permitted-device edit is right if and only if the device is not already listed as external in
  front of another entry; then the entry is lost and the last one doubled. With two claims for
  different resources no list is left alone by both edits (`NoCommonFixedPoint`).
- The GPU patch applies if and only if there is at most one GPU.
- One PCI inventory pass is enough if and only if it creates no VF or every stale object carries the
  label of the last created VF's parent (`OnePassExact`); two passes always are. A new object that is
  no VF carries a parent's label if and only if a VF was created before it (`MislabelledExactly`).
- A USB reconcile compares four fields; an object describes its device afterwards if and only if it is
  new, differed in one of them, or did so before (`DescribesExactly`). An update clears "enabled" and
  leaves the claim: the two agree afterwards if and only if no device in use was updated
  (`ClaimedExactly`).
- A claim can be removed under another plugin key than it was added under; the exact conditions are
  `UnpooledKeysMatch` and `PooledKeysMatch`.
- A resource name is meant to fit a socket path; the vendor/ID fallback need not, and
  `SocketPathExact` says when the path fits.
- An empty name is recorded if and only if some address of the closure has no name in the table or no
  requested ID is known (`EmptyNameExactly`), a name twice for some map order if and only if a
  requested group has another member (`NoDuplicatesExactly`), and too few names for the machine's
  entries if and only if two requested devices in a row have no name (`EnoughNamesExactly`).

Assumptions about the outside: the GPU's profile listing shows the profile of every instance
(`Gpu.Listed`) and a new instance gets an unused identifier (`UnusedIds`), API calls are, except for
new claims, seen at once, JSON encoding is lossless, and PCI and USB paths have the fixed widths the kernel gives them.

## Model

| member | source | states |
|---|---|---|
| `MigTheorems.CommandsArePlan` | pkg/util/gpuhelper/mig.go:93-122 | with unique profile IDs the create commands are the concatenation of the positive requests in specification order |
| `MigTheorems.CountSeesEveryInstance` | pkg/controller/gpudevice/mig_controller.go:93-99 | the discovered instance count is zero exactly when the GPU holds no instance |
| `MigTheorems.CreateAllEffect` | pkg/util/gpuhelper/mig.go:113-122 | a run of creates issues a prefix of its plan, all of it if none fails, and adds one instance per success |
| `MigTheorems.CreatedProfiles` | pkg/util/gpuhelper/mig.go:113-122 | creates without a failure add instances of exactly the commanded profiles, in order |
| `MigTheorems.DeleteAllEffect` | pkg/util/gpuhelper/mig.go:305-359 | a run of deletes only removes instances, creates none, and leaves none of the given identifiers unless a command failed |
| `MigTheorems.InitialIsSafe` | pkg/util/gpuhelper/mig.go:39-63 | a newly generated configuration on an empty GPU satisfies the run invariant, whatever profiles are listed |
| `MigTheorems.StepSafe` | pkg/controller/gpudevice/mig_controller.go:19-90 | every edit, reconcile (failing anywhere) and disappearance of instances keeps the invariant and the create discipline |
| `MigTheorems.RunSafe` | pkg/webhook/migconfiguration.go:45-99 | in every run whose edits are bounded at most seven instances exist, creates happen only on an empty GPU of an enabled configuration, and each reconcile issues a prefix of the commands, which with unique IDs are the plan |
| `MigTheorems.CommandsLength` | pkg/util/gpuhelper/mig.go:98-122 | for every specification, also with repeated IDs, the number of commands is the last positive request summed over the positive entries |
| `MigTheorems.OrdinarySpecIsBounded` | pkg/webhook/migconfiguration.go:76-82 | non-negative requests with unique IDs are bounded |
| `MigBound.ReconcileMakesLoad` | pkg/controller/gpudevice/mig_controller.go:29-65 | an error-free reconcile of an enabled configuration on an empty GPU makes exactly that many instances; with unique IDs it is the sum of the positive requests |
| `MigBound.BoundIsExact` | pkg/webhook/migconfiguration.go:45-82 | for every specification, the run that enables a new configuration, edits it and reconciles it ends within seven instances if and only if the specification is bounded |
| `MigBound.NegativeRequestDefeatsBound` | pkg/webhook/migconfiguration.go:76-82 | requests of 8 and -1 are admitted and the run ends with eight instances |
| `MigBound.RepeatedIdDefeatsBound` | pkg/util/gpuhelper/mig.go:98-114 | requests of 1 and 6 for one profile ID are admitted and the run ends with twelve instances |
| `MigTheorems.DisabledConverges` | pkg/controller/gpudevice/mig_controller.go:67-89 | a disabled configuration has no instances after two error-free reconciles, from any recorded status, and then nothing changes |
| `MigTheorems.TwoReconcilesEmptyTheGpu` | pkg/util/gpuhelper/mig.go:316-359 | with an executor that answers, those two reconciles do not fail and leave the GPU empty |
| `MigTheorems.DisabledSucceeds` | pkg/util/gpuhelper/mig.go:329-356 | deleting never fails on its own: compute instances go first and what is gone is not deleted again |
| `MigTheorems.EnabledConverges` | pkg/controller/gpudevice/mig_controller.go:29-65 | an enabled configuration with a positive request on an empty GPU is synced after two error-free reconciles, with instances of exactly the commanded profiles in order, and is then a fixed point |
| `MigTheorems.EnabledSucceeds` | pkg/util/gpuhelper/mig.go:92-122 | with an executor that answers and a GPU that accepts the profiles, enabling does not fail |
| `MigTheorems.SyncedIsFixed` | pkg/controller/gpudevice/mig_controller.go:53-65 | a synced configuration whose record matches the GPU is unchanged by every reconcile, failing or not |
| `MigLaws.OthersLeftAlone` | pkg/controller/gpudevice/mig_controller.go:20-22 | a configuration of another node or one being deleted is left alone |
| `MigLaws.UnansweredChangesNothing` | pkg/controller/gpudevice/mig_controller.go:24-27 | without an answer to both listings the reconcile fails and changes nothing |
| `MigLaws.CompareExactly` | pkg/controller/gpudevice/mig_controller.go:53-65 | with instances on the GPU and two answers an enabled configuration becomes synced if and only if its record equals the report, out of sync if and only if it differs, and nothing else changes |
| `MigLaws.FailedEnablingExactly` | pkg/controller/gpudevice/mig_controller.go:35-51 | a failed enabling leaves a message if and only if fewer instances than commanded exist, and otherwise changes nothing |
| `MigLaws.EnablingRecords` | pkg/controller/gpudevice/mig_controller.go:46-51 | a successful enabling records the report, clears the message and empties the state |
| `MigLaws.DisablingRecords` | pkg/controller/gpudevice/mig_controller.go:67-86 | a disabled configuration is recorded as disabled once its deletions succeed, and otherwise left alone |
| `MigLaws.InUseStaysEnabled` | pkg/webhook/migconfiguration.go:68-72 | no edit disables a configuration that has an enabled vGPU |
| `MigLaws.EditKeeps` | pkg/webhook/migconfiguration.go:55-61 | no edit changes a synced or out-of-sync specification, the status or the GPU |
| `MigLaws.EnabledIsOffered` | pkg/webhook/migconfiguration.go:63-66 | whatever an edit enables is within what the last row with its ID offers, or asks for nothing without one |
| `MigLaws.EditAsksForSeven` | pkg/webhook/migconfiguration.go:49-53 | no edit that takes effect asks for more than seven in sum |
| `MigLaws.EditTakesEffect` | pkg/webhook/migconfiguration.go:45-74 | an edit that breaks none of these takes effect |
| `MigLaws.UnlockedExactly` | pkg/controller/gpudevice/mig_controller.go:29-86 | a specification is unlocked if and only if a reconcile of its node succeeds and finds it disabled with instances, or enabled with none left |
| `MigLaws.LockedKeepsSpec` | pkg/webhook/migconfiguration.go:55-61 | in every run a specification stays the same as long as it is locked |
| `MigLaws.RunningKeepsSpec` | pkg/webhook/migconfiguration.go:55-61 | in every run a synced or out-of-sync specification stays until it is disabled or its last instance vanishes |
| `MigCommands.CreateOneExactly` | pkg/util/gpuhelper/mig.go:362-371 | a create is one command and makes an instance if and only if it is answered and the GPU accepts it |
| `MigCommands.DeleteOneExactly` | pkg/util/gpuhelper/mig.go:318-359 | a deletion succeeds if and only if its two listings and the deletions for what they show are answered; otherwise the GPU instance stays, and the compute instance unless its deletion was answered |
| `MigCommands.DeleteAllExactly` | pkg/util/gpuhelper/mig.go:305-314 | a run of deletions succeeds if and only if all its commands are answered |
| `MigCommands.EnablingSucceedsExactly` | pkg/controller/gpudevice/mig_controller.go:31-51 | on a GPU that accepts the profiles enabling fails if and only if one of its creates and four listings is not answered |
| `MigCommands.DisablingSucceedsExactly` | pkg/controller/gpudevice/mig_controller.go:67-86 | disabling fails if and only if one of its deletions and four listings is not answered |
| `MigTheorems.EarlyEditIsReportedSynced` | pkg/webhook/migconfiguration.go:57-61 | between the first and second reconcile any edit asking for at most seven is admitted and then reported synced with the old instances, which are the new ones if and only if both lead to the same commands |
| `MigSync.SyncedExactly` | pkg/controller/gpudevice/mig_controller.go:53-65 | a reconcile that ends synced means that the specification is met if and only if the record lists as many identifiers per profile as it asks for |
| `MigSync.SameReport` | pkg/util/gpuhelper/mig.go:204-253 | equal reports mean equal numbers of instances of each profile |
| `MigSync.RunSynced` | pkg/controller/gpudevice/mig_controller.go:19-90 | in every run, a reconcile that ends synced has found what was held when the record was last written, and the specification is met if and only if its commands are that, as a multiset |
| `MigSync.NewIsGood` | pkg/util/gpuhelper/mig.go:39-63 | a newly generated configuration on an empty GPU is a start for these runs |
| `MigOrder.SortedExactly` | pkg/util/gpuhelper/mig.go:108-114 | the commands are in ascending order if and only if the specification lists its positive requests so |
| `MigOrder.SmallProfileComesFirst` | pkg/util/gpuhelper/mig.go:108-114 | a specification whose smaller profile is created before the larger one |
| `MigController.Device.EnableMIGProfiles` | pkg/util/gpuhelper/mig.go:92-122 | the loops issue exactly the model's commands and stop at the first failure |
| `MigController.Device.DisableMIGProfiles` | pkg/util/gpuhelper/mig.go:305-314 | every recorded identifier is deleted in order until one deletion fails |
| `MigController.Device.DeleteMIGInstance` | pkg/util/gpuhelper/mig.go:318-359 | checks and deletes the compute instance, then checks and deletes the GPU instance |
| `MigController.Device.GenerateStatus` | pkg/util/gpuhelper/mig.go:67-88 | both listings are asked for, a failing command is an error, and otherwise there is one status row per profile row with the identifiers of its instances |
| `MigListing.ParseMigInfo` | pkg/util/gpuhelper/mig.go:150-163 | the lines that mention MIG, in order, without carriage return, or the error of a line of 64 KiB or more |
| `MigListing.GenerateProfileSpec` | pkg/util/gpuhelper/mig.go:124-147 | a request of zero per row, or the error or crash of the first row that cannot be read |
| `MigListing.GenerateProfileInstanceMap` | pkg/util/gpuhelper/mig.go:255-274 | each profile text with its identifiers once, in order of first appearance, or a crash on a short row |
| `MigListing.GenerateMIGInstanceInfo` | pkg/util/gpuhelper/mig.go:184-202 | the same under profile numbers, for every order of visiting the map, or the error of a key that is no number |
| `MigListing.GenerateProfileStatus` | pkg/util/gpuhelper/mig.go:204-253 | the status read from both texts, with every error and crash |
| `MigListing.GenerateComputeInstanceList` | pkg/util/gpuhelper/mig.go:284-302 | the second element of every row |
| `MigListing.AtoiOfItoa` | pkg/util/gpuhelper/mig.go:195-195 | reading a printed 64-bit number gives it back |
| `MigTables.ElementsOfRow` | pkg/util/gpuhelper/mig.go:258-262 | a row between bars is recognised and cut into its words, whatever the white space |
| `MigTables.RowsOfTable` | pkg/util/gpuhelper/mig.go:150-163 | a printed table with any other lines gives back the words of its rows |
| `MigTables.TablesGiveReport` | pkg/util/gpuhelper/mig.go:204-274 | from truthful tables in any layout the status read is the GPU's report and the first specification asks for nothing |
| `MigTables.TableGivesComputeIds` | pkg/util/gpuhelper/mig.go:284-302 | from a table of compute instances in any layout exactly its identifiers are read |
| `MigReading.AtoiExactly` | pkg/util/gpuhelper/mig.go:177-177 | a text is read as a number if and only if it is digits with an optional sign and the number fits 64 bits |
| `MigReading.ProfileExactly` | pkg/util/gpuhelper/mig.go:166-180 | when a row is a profile, an error or a crash, and its name and ID |
| `MigReading.StatusExactly` | pkg/util/gpuhelper/mig.go:213-236 | a profile's status is an error also if a part around the slash is no number |
| `MigReading.ReadAllExactly` | pkg/util/gpuhelper/mig.go:213-236 | all rows are read, or the first that cannot be read decides |
| `MigReading.InstanceMapExactly` | pkg/util/gpuhelper/mig.go:255-274 | reading instances crashes if and only if a row has fewer than five elements, and its keys are the fourth elements |
| `MigReading.ByNumberExactly` | pkg/util/gpuhelper/mig.go:192-201 | numbering them is an error if and only if a key is no number |
| `MigReading.StatusErrorsExactly` | pkg/util/gpuhelper/mig.go:204-253 | when the whole status is read, and when reading it crashes, with the profile table first |
| `MigController.Handler.OnMIGChange` | pkg/controller/gpudevice/mig_controller.go:19-90 | stored object, GPU and error after a reconcile are those of the model's reconcile |
| `MigController.Update` | pkg/webhook/migconfiguration.go:45-74 | the validator admits exactly the edits the model admits |
| `MigController.ValidRequestedCount` | pkg/webhook/migconfiguration.go:84-99 | true exactly when no request exceeds the availability recorded last for its profile |
| `UsbIds.Parser.Split` | pkg/util/gousb/usbid/parse.go:100-130 | kind, level, identifier and name of a line, or the error |
| `UsbIds.Parser.ParseVendor` | pkg/util/gousb/usbid/parse.go:132-170 | new objects and references after a vendor, product or interface line |
| `UsbIds.Parser.ParseClass` | pkg/util/gousb/usbid/parse.go:172-208 | the same for class lines, with identifiers cut to eight bits |
| `UsbIds.Parser.ParseIDs` | pkg/util/gousb/usbid/parse.go:214-255 | the loop over the reader's lines computes the model's parse, with its errors |
| `UsbIdsTheorems.RoundTrip` | pkg/util/gousb/usbid/parse.go:100-255 | parsing the printed text of any vendor trees followed by any class trees gives back exactly those trees |
| `UsbIdsTheorems.SplitPrinted` | pkg/util/gousb/usbid/parse.go:100-130 | a printed record is split into itself and its kind marker |
| `UsbIdsTheorems.RootsInserted` | pkg/util/gousb/usbid/parse.go:132-208 | inserting the records of trees makes the returned map show exactly those trees, later entries winning |
| `UsbIdsTheorems.ReadFile` | pkg/util/gousb/usbid/parse.go:217-233 | the reader hands over exactly the lines of a file whose lines fit the buffer |
| `UsbIdsTheorems.ReadLinesThen` | pkg/util/gousb/usbid/parse.go:217-233 | the same with carriage returns dropped, and then whatever follows those lines |
| `UsbFiles.FileRoundTrip` | pkg/util/gousb/usbid/parse.go:100-255 | vendor trees, class trees and sections of other kinds, printed with any comments, blank lines and carriage returns, come back as exactly those trees |
| `UsbFiles.CommentsIgnored` | pkg/util/gousb/usbid/parse.go:232-234 | blank lines and lines with a leading number sign change nothing in any file |
| `UsbFiles.OtherKindDropped` | pkg/util/gousb/usbid/parse.go:240-248 | a line whose kind, own or inherited, is neither empty nor C changes neither map and sets the kind |
| `UsbFiles.LowByteCounts` | pkg/util/gousb/usbid/parse.go:172-208 | of a class identifier only the low byte counts |
| `UsbFiles.LastLineRead` | pkg/util/gousb/usbid/parse.go:217-233 | a last line needs no line feed |
| `UsbFiles.LongLineFails` | pkg/util/gousb/usbid/parse.go:217-228 | a line of 512 characters or more is an error |
| `UsbFiles.SplitExactly` | pkg/util/gousb/usbid/parse.go:100-130 | a line is split into a kind and a record if and only if it consists of tabs, perhaps a marker, digits, two spaces and a name |
| `UsbFiles.SplitErrorExactly` | pkg/util/gousb/usbid/parse.go:100-130 | without two adjacent spaces a line is malformed, otherwise its identifier is |
| `UsbFiles.HexNumberExactly` | pkg/util/gousb/usbid/parse.go:124-127 | digits of either case are read as the number printed with them |
| `UsbFiles.InsertedExactly` | pkg/util/gousb/usbid/parse.go:132-208 | records can be inserted if and only if each has a line of the level above before it |
| `UsbIdsTheorems.InterfaceGoesToLastProduct` | pkg/util/gousb/usbid/parse.go:155-163 | a level-2 line is stored in the nearest product above it, under that product's vendor, across any vendor lines in between |
| `DevicePlugin.RunConsistent` | pkg/deviceplugins/device_manager.go:130-148 | in every run, with messages delivered in any order, device IDs are distinct and equal the keys of the IOMMU map |
| `DevicePlugin.CreatedGroups` | pkg/deviceplugins/deviceplugin.go:43-62 | a new plugin maps every device to its own group |
| `DevicePlugin.GroupsHold` | pkg/deviceplugins/deviceplugin.go:65-86 | in every run a device has a group if and only if it had one at first or was added, and a group it had at first stays |
| `DevicePlugin.GroupIsFirstGiven` | pkg/deviceplugins/deviceplugin.go:65-86 | in every run a device that was not there at first has the group it was first added with |
| `PluginHealth.ConfluentExactly` | pkg/deviceplugins/device_manager.go:226-237 | for every plugin state, all orders of taking the pending messages give the same devices if and only if no known device has both a healthy and an unhealthy message pending |
| `PluginHealth.NextOperationExact` | pkg/deviceplugins/deviceplugin.go:65-96 | after the next operation every order of taking the messages ends with exactly the active devices healthy if and only if the operation caused no conflict |
| `PluginHealth.ConflictFreeHealth` | pkg/deviceplugins/deviceplugin.go:12-96 | in every conflict-free run, taking what is pending in any order leaves exactly the devices healthy that were added and not removed since first being added |
| `PluginHealth.DrainedIsConflictFree` | pkg/deviceplugins/deviceplugin.go:12-28 | runs that drain the messages between operations are conflict-free |
| `PluginHealth.CreatedAgrees` | pkg/deviceplugins/deviceplugin.go:43-62 | a new plugin is consistent and about to make its initial device the only healthy one |
| `PluginHealth.AddedHealthyExactly` | pkg/deviceplugins/deviceplugin.go:65-86 | with nothing else on its way an added device becomes healthy if and only if the claim names it |
| `PluginHealth.CountTrustworthyExactly` | pkg/controller/pcideviceclaim/pcideviceclaim_controller.go:146-160 | after a conflict-free removal with any messages pending, a zero count means that no device is active, whichever messages have been taken, if and only if none is left or an active one is healthy already |
| `PluginHealth.DroppedOnlyWhenInactive` | pkg/controller/pcideviceclaim/pcideviceclaim_controller.go:146-160 | the same at the end of every conflict-free run, and once all messages are taken the counted devices are the active ones |
| `PluginHealth.RaceKeepsRemovedDeviceHealthy` | pkg/deviceplugins/deviceplugin.go:12-28 | an add followed by a remove, with the messages taken in the other order, leaves the removed device healthy |
| `DevicePlugin.CountIsHealthyDevices` | pkg/deviceplugins/device_manager.go:88-96 | the count is the number of healthy device IDs |
| `DevicePlugin.PCIDevicePlugin.Create` | pkg/deviceplugins/deviceplugin.go:43-62 | device list, IOMMU map and pending message of a new plugin |
| `DevicePlugin.PCIDevicePlugin.AddDevice` | pkg/deviceplugins/deviceplugin.go:65-86 | a known address is a no-op, a new one is appended unhealthy with a healthy message sent |
| `DevicePlugin.PCIDevicePlugin.RemoveDevice` | pkg/deviceplugins/deviceplugin.go:89-96 | only an unhealthy message is sent |
| `DevicePlugin.PCIDevicePlugin.ReceiveHealth` | pkg/deviceplugins/device_manager.go:226-237 | exactly the devices named by the message change health |
| `DevicePlugin.Handler.OnRemove` | pkg/controller/pcideviceclaim/pcideviceclaim_controller.go:141-160 | the plugin is dropped exactly when the count finds no healthy device, after the stream has taken any of the messages in any order; devices and messages are what is left then |
| `Allocation.Allocate` | pkg/deviceplugins/device_manager.go:256-292 | one shared response for all containers, with the addresses of all requests and the device nodes of the last |
| `Allocation.OwnDevicesExactly` | pkg/deviceplugins/device_manager.go:261-288 | every container is told its own devices if and only if there is at most one request or none names a device of the plugin |
| `Allocation.SpecsExactly` | pkg/deviceplugins/common.go:159-175 | each known ID gives the common VFIO node and the node of its group, in request order |
| `Allocation.ConvertEnvToMap` | pkg/controller/virtualmachine/virtualmachine.go:200-224 | the environment map of the pod's env text |
| `Allocation.ReconcilePCIDeviceDetails` | pkg/controller/virtualmachine/virtualmachine.go:473-493 | one entry per requested resource whose variable is set, with the names of its addresses |
| `Allocation.ReconcileGPUDetails` | pkg/controller/virtualmachine/virtualmachine.go:450-471 | the same for vGPUs, without removing adjacent duplicates |
| `Allocation.VgpuNamesExactly` | pkg/controller/virtualmachine/virtualmachine.go:450-471 | a joined list of vGPU identifiers gives one name for each, in order, empty for an unknown one |
| `Allocation.DedupDevices` | pkg/controller/virtualmachine/virtualmachine.go:278-283 | every list is compacted and no key changes, in any visiting order |
| `Allocation.EnvRoundTrip` | pkg/controller/virtualmachine/virtualmachine.go:200-224 | whatever surrounds it in the environment, the value is read back, also with `=` in it |
| `Allocation.RequestRoundTrip` | pkg/controller/virtualmachine/virtualmachine.go:473-493 | distinct known IDs with singleton groups come back as exactly their device names in request order |
| `Allocation.ClosureRoundTrip` | pkg/deviceplugins/device_manager.go:256-292 | for arbitrary groups the names are, as a set, those of the IOMMU-group closure |
| `Allocation.UnknownRequestRecordsEmptyName` | pkg/controller/virtualmachine/virtualmachine.go:480-487 | a request without a known ID is recorded as one empty name |
| `Recording.EmptyNameExactly` | pkg/controller/virtualmachine/virtualmachine.go:473-493 | an empty name is recorded if and only if some address of the closure has no name, or no requested ID is known and the empty address has none |
| `Recording.NoDuplicatesExactly` | pkg/deviceplugins/device_manager.go:268-277 | for distinct known IDs the recorded names are free of duplicates for every map order if and only if the requested devices are alone in their groups |
| `Recording.RecordedFromPod` | pkg/controller/virtualmachine/virtualmachine.go:200-224 | the names are what is read from the pod's environment, whatever surrounds the value |
| `Recording.EnoughNamesExactly` | pkg/controller/virtualmachine/virtualmachine.go:424-448 | for devices alone in their groups, entries that ask once per requested device can be patched if and only if no two requested devices in a row have no name |
| `Recording.MissingPairExhaustsNames` | pkg/controller/virtualmachine/virtualmachine.go:430-433 | two devices without a name share one empty name, and the second entry finds the list empty |
| `SpecPatch.PatchDevices` | pkg/controller/virtualmachine/virtualmachine.go:424-448 | no empty list is popped exactly when every mapped resource has enough names; then the k-th entry gets the k-th name, other entries stay, and the map keeps the unused suffixes |
| `SpecPatch.DistinctNamesOut` | pkg/controller/virtualmachine/virtualmachine.go:430-433 | distinct names in the map give distinct names to mapped entries |
| `SpecPatch.DemandKept` | pkg/controller/virtualmachine/virtualmachine.go:425-434 | patching changes no entry's resource |
| `IommuClosure.Mutator.GenerateHostDevicesPatch` | pkg/webhook/vm.go:124-173 | patch entries, claims and error after the call, for every view the claim cache gives; an unknown device or claim means neither patch nor claim |
| `IommuClosure.ClaimAllSucceeds` | pkg/webhook/vm.go:214-227 | if no claim is refused, every needed device has exactly one, whatever the cache showed |
| `IommuClosure.AlwaysSucceedsExactly` | pkg/webhook/vm.go:166-170 | the webhook succeeds however the cache lags if and only if no unclaimed missing device shares its group with two entries of the machine |
| `IommuClosure.IdentifyAdditionalPCIDevices` | pkg/webhook/vm.go:204-212 | the requirements the machine lacks, in order |
| `IommuClosure.PatchedVMIsClosed` | pkg/webhook/vm.go:124-173 | the patched machine is closed under same node and IOMMU group |
| `IommuClosure.PatchedVMIsMinimal` | pkg/webhook/vm.go:146-161 | nothing is added outside the groups of the machine's own devices |
| `IommuClosure.PatchedVMIsClaimed` | pkg/webhook/vm.go:214-227 | every device of the patched machine exists and is claimed, and old claims are kept |
| `IommuPatch.AppendedEntriesExactly` | pkg/webhook/vm.go:175-202 | the machine's own entries come first, unchanged, and every appended entry asks for the resource that the cache holds for the device of its name |
| `IommuPatch.NewClaimsExactly` | pkg/webhook/vm.go:146-170 | every new claim belongs to the owner of the claim of the machine's first entry in the device's group |
| `IommuPatch.FailedClaimsArePart` | pkg/webhook/vm.go:166-170 | a call that fails has made some of these claims and no others |
| `IommuClosure.AppendedOncePerSharingEntry` | pkg/webhook/vm.go:151-157 | a missing device is appended once per entry in its group |
| `IommuClosure.PatchIsIdempotent` | pkg/webhook/vm.go:161-164 | running the webhook on its result appends nothing |
| `GpuPatch.ConvertGPUsToHostDevices` | pkg/webhook/vm.go:313-331 | the operations, two per GPU, after an initial empty list if needed |
| `GpuPatch.PatchAppliesForAtMostOneGpu` | pkg/webhook/vm.go:313-331 | the patch moves all GPUs in order for at most one GPU and fails for two or more |
| `GpuPatch.FirstMissingRemoval` | pkg/webhook/vm.go:319-322 | with n GPUs, n at least 2, the first failing operation is the removal at index n/2 rounded up |
| `Annotation.ReconcileDeviceAllocationAnnotation` | pkg/webhook/vm.go:263-311 | no patch, a removal or a replacement, as the annotation and the specification demand |
| `Annotation.GroupHostDevices` | pkg/webhook/vm.go:283-286 | the names grouped by resource, each group in specification order |
| `Annotation.GenerateDeviceInfo` | pkg/util/common/common.go:121-132 | all lists concatenated, each key visited once in some order |
| `Annotation.PathAddressesKey` | pkg/webhook/vm.go:293-294 | for every key the escaped path addresses exactly that key |
| `Annotation.PathExactly` | pkg/webhook/vm.go:293-294 | the path is /metadata/annotations/ and the escaped key |
| `Annotation.AnnotationAgreesWithSpec` | pkg/webhook/vm.go:263-311 | after the patch the indexed names are the same multiset as the specification's host device names, and no other annotation changes |
| `Annotation.PatchedAnnotations` | pkg/webhook/vm.go:263-311 | the annotations after the patch: unchanged for a running machine or without the key, else without the key or with the new value |
| `Annotation.NoPatchExactly` | pkg/webhook/vm.go:263-311 | there is nothing to patch if and only if the key is absent, the machine is running, or the annotation already shows the devices |
| `JsonPointer.UnescapeEscape` | pkg/util/common/common.go:170-174 | unescaping undoes escaping for every string |
| `JsonPointer.EscapedIsToken` | pkg/util/common/common.go:170-174 | the escaped string is one valid reference token |
| `Permitted.ReconcileKubevirtCR` | pkg/controller/pcideviceclaim/pcideviceclaim_controller.go:525-558 | the list the in-place edit leaves in the copy, with the input untouched |
| `Permitted.ShiftLeft` | pkg/controller/pcideviceclaim/pcideviceclaim_controller.go:542-542 | the tail moves down and the last cell keeps its value |
| `Permitted.ReconciledCorrectly` | pkg/controller/pcideviceclaim/pcideviceclaim_controller.go:525-558 | other entries stay in order with exactly one external entry for the device, if and only if it was not external in front of others |
| `Permitted.MisplacedLoses` | pkg/controller/pcideviceclaim/pcideviceclaim_controller.go:536-545 | otherwise the length stays, the entry is gone and the last entry is doubled |
| `Permitted.LossRepairedWithDuplicate` | pkg/controller/pcideviceclaim/pcideviceclaim_controller.go:547-556 | the next edit brings the entry back and keeps the duplicate |
| `Permitted.FixedPointExactly` | pkg/controller/pcideviceclaim/pcideviceclaim_controller.go:525-558 | with unique names the edit changes nothing if and only if the device is external at the end of the list |
| `Permitted.NoCommonFixedPoint` | pkg/controller/pcideviceclaim/pcideviceclaim_controller.go:525-558 | for every list and two devices with different resource names, one of the two edits changes the list |
| `PciInventory.Handler.ReconcilePCIDevices` | pkg/controller/pcidevice/pcidevice_controller.go:47-140 | the store after a pass, including the shared label map, or after the calls before the one that failed |
| `PciInventory.PassDeletesOnlyStale` | pkg/controller/pcidevice/pcidevice_controller.go:115-137 | no pass deletes a present, unskipped device's object or touches another node's |
| `PciFields.PassShowsDevices` | pkg/apis/devices.harvesterhci.io/v1beta1/pcidevice.go:126-145 | after a pass the object of every present, unskipped device has the host's driver, IDs and description, the overriding or generated resource name and the listed or old IOMMU group; an old object keeps labels and annotations, a new one has the driver as its only annotation |
| `PciFields.HalfVisitedShows` | pkg/apis/devices.harvesterhci.io/v1beta1/pcidevice.go:159-180 | if its first status update fails, a new object shows the device as well, without a group |
| `PciInventory.CutShortDeletesOnlyStale` | pkg/controller/pcidevice/pcidevice_controller.go:58-139 | the same for a pass that fails at any call, which also keeps the store valid |
| `PciInventory.FinalLabels` | pkg/controller/pcidevice/pcidevice_controller.go:73-77 | the shared label map ends as the node's label, widened by the parent of the last VF the pass creates |
| `PciInventory.CreatedLabels` | pkg/controller/pcidevice/pcidevice_controller.go:73-78 | every new object is labelled with the node and the parent of the last VF created until then |
| `PciInventory.MislabelledExactly` | pkg/controller/pcidevice/pcidevice_controller.go:73-78 | a new object that is no VF carries a parent's label if and only if a VF was created before it in the pass |
| `PciInventory.OnePassExact` | pkg/controller/pcidevice/pcidevice_controller.go:115-137 | one pass reaches the target if and only if it creates no VF or every stale object carries that parent's label |
| `PciInventory.OnePassWithoutVF` | pkg/controller/pcidevice/pcidevice_controller.go:165-179 | a pass that creates no VF reaches the target |
| `PciInventory.TwoPassesConverge` | pkg/controller/pcidevice/pcidevice_controller.go:47-140 | two consecutive passes always reach the target |
| `PciInventory.TwoPassesRecover` | pkg/controller/pcidevice/pcidevice_controller.go:47-140 | after a pass that failed at any call two that succeed reach the target |
| `PciInventory.NewVFHidesStaleObject` | pkg/controller/pcidevice/pcidevice_controller.go:73-77 | a pass that creates a VF leaves a stale object without the VF's label |
| `PciInventory.SourceNamingIsGood` | pkg/apis/devices.harvesterhci.io/v1beta1/pcidevice.go:150-157 | the naming used by the inventory determines host and address |
| `UsbInventory.GetList` | pkg/controller/usbdevice/usbdevice_controller.go:237-308 | the four lists; deleted ones in some order, orphans the enabled ones among them |
| `UsbInventory.Handler.HandleList` | pkg/controller/usbdevice/usbdevice_controller.go:180-235 | store and claims after the lists are applied, or failure on a taken name |
| `UsbInventory.Handler.Reconcile` | pkg/controller/usbdevice/usbdevice_controller.go:151-178 | one reconcile computes the lists from the listed objects and applies them |
| `UsbInventoryTheorems.ListsCoverDifference` | pkg/controller/usbdevice/usbdevice_controller.go:244-300 | create, update and delete are disjoint and cover the difference, and orphaned is the enabled part of delete |
| `UsbInventoryTheorems.ChangedExactly` | pkg/controller/usbdevice/usbdevice_controller.go:317-322 | an object is updated if and only if one of vendor ID, product ID, description and class differs |
| `UsbInventoryTheorems.NoCreateCollides` | pkg/controller/usbdevice/usbdevice_controller.go:310-315 | no created name is stored or created twice |
| `UsbInventoryTheorems.ReconcileAgrees` | pkg/controller/usbdevice/usbdevice_controller.go:151-235 | a reconcile succeeds, leaves other nodes alone, and makes stored paths and the four compared status fields agree with the host |
| `UsbInventoryTheorems.SecondReconcileIsEmpty` | pkg/controller/usbdevice/usbdevice_controller.go:317-322 | a second pass over the same host yields four empty lists |
| `UsbInventoryTheorems.RunValid` | pkg/controller/usbdevice/usbdevice_controller.go:151-322 | in every run each object's name encodes its node and path |
| `UsbInventoryTheorems.RunReconciles` | pkg/controller/usbdevice/usbdevice_controller.go:151-322 | in every run each reconcile succeeds and ends in agreement with its host on paths and the four compared fields |
| `UsbClaims.DescribesExactly` | pkg/controller/usbdevice/usbdevice_controller.go:267-281 | after a reconcile the whole status describes the device if and only if the object is new, differed in a compared field or described it before |
| `UsbClaims.WrittenStartsOver` | pkg/controller/usbdevice/usbdevice_controller.go:250-281 | a new or updated object is neither enabled nor orphaned |
| `UsbClaims.HandledExactly` | pkg/controller/usbdevice/usbdevice_controller.go:180-235 | lists are applied if and only if the created names are new and distinct and every updated object exists |
| `UsbClaims.OrphanedExactly` | pkg/controller/usbdevice/usbdevice_controller.go:209-226 | the claim of an orphan is deleted; an orphan without one is marked instead |
| `UsbClaims.ClaimedExactly` | pkg/controller/usbdevice/usbdevice_controller.go:180-235 | "enabled if and only if claimed, and every claim has an object" survives a reconcile if and only if no updated object was enabled |
| `UsbClaims.RunClaimed` | pkg/controller/usbdevice/usbdevice_controller.go:151-322 | it holds throughout every run whose reconciles update no device in use |
| `UsbInventoryTheorems.SourceFormatIsGood` | pkg/controller/usbdevice/usbdevice_controller.go:310-315 | the object names the controller builds determine node and path |
| `Override.Handler.EnsureIndividualDeviceResourceName` | pkg/controller/pcideviceclaim/pcideviceclaim_controller.go:342-366 | annotation and status get the vendor part and the device's name |
| `Override.IndividualExactly` | pkg/controller/pcideviceclaim/pcideviceclaim_controller.go:342-366 | the individual name is the vendor up to the first slash with the device's name, or that name alone |
| `Override.Handler.ReconcilePCIDeviceClaim` | pkg/controller/pcideviceclaim/pcideviceclaim_controller.go:427-481 | name and plugin key after a claim reconcile |
| `Override.Handler.OnRemove` | pkg/controller/pcideviceclaim/pcideviceclaim_controller.go:136-172 | plugin key and annotation after a claim ends |
| `Override.Handler.UpdateStatus` | pkg/apis/devices.harvesterhci.io/v1beta1/pcidevice.go:126-145 | a non-empty annotation overrides the generated name |
| `Override.RunSound` | pkg/controller/pcideviceclaim/pcideviceclaim_controller.go:342-383 | in every interleaving the annotation is absent or the device's own name, and set only under a claim that disables pooling |
| `Override.OverrideHolds` | pkg/controller/pcideviceclaim/pcideviceclaim_controller.go:424-442 | once reconciled, such a claim keeps the name through every interleaving until it ends, and repeating changes nothing, whatever annotation the device had |
| `Override.UnpooledKeysMatch` | pkg/controller/pcideviceclaim/pcideviceclaim_controller.go:136-139 | removal and creation use the same plugin key if and only if the claim has no annotation that only the removal reads |
| `Override.CleanupRestores` | pkg/controller/pcideviceclaim/pcideviceclaim_controller.go:168-172 | after any such claim ends the annotation is gone and one periodic reconcile restores the generated name; no plugin holds the device if and only if the keys matched |
| `Override.PooledKeysMatch` | pkg/controller/pcideviceclaim/pcideviceclaim_controller.go:441-475 | for pooled claims the keys agree if and only if, with an annotation of the claim, the reconcile reads it too or the status showed it, and without one, the status shows what a periodic reconcile would write or none follows |
| `Override.RemovalExactly` | pkg/controller/pcideviceclaim/pcideviceclaim_controller.go:168-172 | ending a pooled claim leaves the annotation alone, ending any other removes it |
| `Override.PeriodicExactly` | pkg/apis/devices.harvesterhci.io/v1beta1/pcidevice.go:133-137 | the resource name becomes the annotation if that is not empty, and the generated name otherwise |
| `SocketName.ShortenedHasNoSuffix` | pkg/apis/devices.harvesterhci.io/v1beta1/pcidevice.go:187-191 | replacing VIRTUAL_FUNCTION by VF leaves none and creates none |
| `SocketName.TrimIsTwoLevels` | pkg/apis/devices.harvesterhci.io/v1beta1/pcidevice.go:184-196 | the recursion equals a form with at most one retry |
| `SocketName.SocketPathFits` | pkg/apis/devices.harvesterhci.io/v1beta1/pcidevice.go:184-196 | every name but the vendor/ID fallback gives a socket path of at most 107 bytes |
| `SocketName.SocketPathBoundIsTight` | pkg/deviceplugins/common.go:145-147 | 107 is reached |
| `SocketName.SocketPathExact` | pkg/apis/devices.harvesterhci.io/v1beta1/pcidevice.go:184-196 | the path has at most 107 bytes if and only if the name is short enough, or the shortened one is, or vendor and ID have at most 60 bytes together |
| `Names.PciNameInjective` | pkg/apis/devices.harvesterhci.io/v1beta1/pcidevice.go:150-157 | PCI object names determine host and address for fixed-width bus, device and function |
| `Names.PciNameExactly` | pkg/apis/devices.harvesterhci.io/v1beta1/pcidevice.go:150-157 | the name is the host, a hyphen and the address without its separators |
| `Names.PciNameNeedsFixedWidths` | pkg/apis/devices.harvesterhci.io/v1beta1/pcidevice.go:150-157 | without fixed widths two addresses can share a name |
| `Names.UsbNameInjective` | pkg/controller/usbdevice/usbdevice_controller.go:310-315 | USB object names determine node, IDs and path |
| `Names.UsbNameExactly` | pkg/controller/usbdevice/usbdevice_controller.go:310-315 | the name is the node, both IDs as four digits, and the bus and device numbers of the path |
| `Names.NodeKeyInjective` | pkg/webhook/indexer.go:51-59 | for second parts without a hyphen, index keys are equal exactly when both parts are |
| `Names.NodeKeyNeedsHyphenFreePart` | pkg/webhook/indexer.go:51-59 | with a hyphen in the second part keys can collide |

## Left out

- MigController.Device.GenerateStatus: works on the listed rows; that the texts of truthful tables give the same report is `MigTables.TablesGiveReport`.
- Update conflicts and retries of API calls; a USB reconcile fails only on a taken name, a PCI pass at any call.
- The vGPU controller, which also sets and removes a device's override annotation; `OverrideHolds`, `UnpooledKeysMatch`, `CleanupRestores` and `PooledKeysMatch` start from any annotation, but no run contains its writes.
- The update path of the machine webhook: it compares the new machine with itself (pkg/webhook/vm.go:92-96), so the IOMMU-group completion, which is modelled, runs on create only.
- The NUMA topology of plugin devices.
- gRPC servers, sockets, file watchers, kubelet registration and timers of the device plugins; health messages are kept as a delivery step.
- sysfs access, driver binding, kernel modules and netlink.
- The text of GPU commands; the GPU is a list of profile rows and instance rows, new instances are listed last, and listings are truthful.
- The list commands end in `|| exit 0`, so a failing listing could look empty; the model treats a failing command as an error.
- The cleaning of vendor and product names by regular expressions before the resource name is trimmed.
- JSON encoding of objects; it is a pair of functions of which the second undoes the first.
- Line numbers and wording of parser errors.
- The validators of the webhook other than the MIG one (PCI and USB claims, USB devices, SR-IOV network and GPU devices, vGPUs, virtual machines), which refuse a request after looking up the objects it names.
- Node labels and node cleanup, the SR-IOV NIC listing, and the vGPU and USB device plugins.
