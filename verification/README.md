# Dropbear server host-key bookkeeping, modelled in Dafny

This project models how the Dropbear SSH server sets up its host keys and
listening addresses at startup (`svr-runopts.c`):

- **Loading** (`Loader`): each configured key file is read. While the read
  fails and generating a fresh file succeeds, the read is retried. The key
  read goes into the bundle slot for the type *detected in the file*, not
  the type requested. A slot that is already filled keeps its first key, or
  the process aborts when duplicates are fatal.
- **Enablement** (`Registry`, `Resolver`): after loading, some `usable` flags
  of the signature-algorithm table are cleared. RSA, DSS and ED25519 are
  cleared when their slot is empty. An ECDSA size is cleared when its slot
  is empty and either some ECDSA key is loaded or it is not
  `ECDSA_DEFAULT_SIZE`. In builds that have the security-key variants
  (`DROPBEAR_SK_ECDSA`, `DROPBEAR_SK_ED25519`), their entries are cleared
  whatever the bundle holds. Startup aborts with "No hostkeys available"
  when no slot holds a key.
- **Listening addresses** (`Listeners`): each `-p [address:]port` option is
  appended to a bounded table. A missing address becomes the default
  address, an empty port is fatal, and options past the limit are ignored.
  With no `-p` option the table holds one default entry.

The compile-time feature flags (`DROPBEAR_RSA`, `DROPBEAR_ECC_256`,
`ECDSA_DEFAULT_SIZE`, …) are the fields of `KeyTypes.Features`.
`DROPBEAR_MAX_PORTS`, `DROPBEAR_DEFPORT` and `DROPBEAR_DEFADDRESS` are the
fields of `Listeners.PortOptions`. All state is passed in and out
explicitly; the server's globals are not modelled as globals.

The file system and key generation are treated as an environment. A key
file's environment is a `seq<Round>`: round `i` gives the answer of the
`i`-th read and, when that read fails, whether the `i`-th generation
succeeds. `split_address_port` is likewise an answer (`SplitResult`) given
for each `-p` option.

The read is retried for as long as generation keeps succeeding, not just
once: the loop in `loadhostkey` jumps back to the read after every
successful generation.

More than one ECDSA size can remain enabled. The comment at line 733 of
`svr-runopts.c` says at most one will, but that holds only when at most one
ECDSA slot is filled (`Resolver.SingleEcdsaSizeAdvertised`,
`Resolver.TwoEcdsaSizesAdvertised`). Two slots can be filled because a file
configured for one family may contain a key of another.

## Model

| member | source | states |
|---|---|---|
| Registry.Disable | svr-runopts.c:591-600 | `disablekey` clears `usable` on the first entry whose code is the key type's. Every other entry and field is unchanged, and a table with no such entry comes back as it was. |
| Registry.DisableExtends | svr-runopts.c:591-600 | Successive `disablekey` calls add up to a single pass. That pass clears exactly the first entry for each type disabled so far. |
| Resolver.PolicySteps | svr-runopts.c:696-766 | The pass makes eight conditional `disablekey` calls in source order: RSA, DSS, the three ECDSA sizes, ED25519, then the two security-key variants. A call for a key family or ECDSA size fires only when the build has that slot and the slot is empty. A security-key call fires exactly when the build has that variant. |
| Resolver.ApplyStepsExact | svr-runopts.c:696-766 | Running a list of conditional `disablekey` calls clears exactly the entries targeted by the calls whose condition holds. |
| Resolver.PolicyStepsFire | svr-runopts.c:696-766 | The calls `load_all_hostkeys` makes fire for exactly the types the enablement policy disables. |
| Resolver.DisablePass | svr-runopts.c:696-766 | The disabling half of `load_all_hostkeys` yields the table with flags cleared exactly where the policy says: single-key families with an empty slot; ECDSA sizes with an empty slot when some ECDSA key is loaded or the size is not the default; security-key variants in builds that have them, whatever the bundle holds. |
| Resolver.LoadedAnyEcdsa | svr-runopts.c:719-731 | `loaded_any_ecdsa` holds exactly when an ECDSA slot of a compiled size holds a key. |
| Resolver.AnyKeys | svr-runopts.c:696-760 | `any_keys` holds exactly when some slot the build has holds a key. |
| Resolver.Resolve | svr-runopts.c:696-770 | The enablement pass never stalls. It succeeds exactly when some host key is available, and its table is then the policy's table. Otherwise it aborts with "No hostkeys available". |
| Resolver.FlagsOnlyCleared | svr-runopts.c:591-600 | Flags only ever go from usable to unusable. Entries with no key code, or behind an earlier entry with the same code, are never touched. |
| Resolver.LoadedKeysStayUsable | svr-runopts.c:696-760 | A type whose slot holds a key keeps its table entry exactly as it was. Every loaded family and ECDSA size stays advertised. |
| Resolver.SingleKeyFamilyRule | svr-runopts.c:696-710 | For RSA and DSS, and for ED25519 (lines 754-760), the family's entry stays usable exactly when it was usable and its slot holds a key. |
| Resolver.EcdsaLoadedSizesOnly | svr-runopts.c:712-751 | Once any ECDSA key is loaded, an ECDSA size stays usable exactly when its own slot holds a key. |
| Resolver.EcdsaDefaultSizeOnly | svr-runopts.c:712-751 | With no ECDSA key loaded, an ECDSA size stays usable exactly when it is the default size. |
| Resolver.SecurityKeysDisabled | svr-runopts.c:761-766 | In builds that have them (`DROPBEAR_SK_ECDSA`, `DROPBEAR_SK_ED25519`), the first entry carrying a security-key code ends up unusable whatever the bundle holds. |
| Resolver.SingleEcdsaSizeAdvertised | svr-runopts.c:733-751 | When at most one ECDSA slot holds a key, any two usable ECDSA entries are for the same size. |
| Resolver.TwoEcdsaSizesAdvertised | svr-runopts.c:733-751 | If both a 256-bit and a 384-bit ECDSA key are loaded, both sizes stay usable. So the "at most one size" comment needs the condition above. |
| Resolver.LoadAllHostKeys | svr-runopts.c:673-770 | Startup never aborts on a duplicate. Each slot ends up with the key of the first file whose read detected that slot's type. Startup aborts with "No hostkeys available" exactly when no file supplied a key for a slot the build has. It stalls exactly when some file's read loop does not finish. |
| Loader.ReadOrGenerate | svr-runopts.c:615-630 | The read-or-regenerate loop has two exits: the first successful read, with its detected type and key, or the first failed generation, which leaves the type at "any". It does not finish when every round regenerates. |
| Loader.Merge | svr-runopts.c:602-612 | `loadhostkey_helper` moves the new key into an empty slot and empties the source. An occupied slot is kept as it is, or the process aborts naming the family when duplicates are fatal. No key is lost or duplicated. |
| Loader.Dispatch | svr-runopts.c:633-667 | A finished read changes the bundle only by filling the empty slot of its detected type, when the build has that slot. An unread file, a type with no compiled slot, or an occupied slot under non-fatal duplicates leaves the bundle unchanged. An occupied slot under fatal duplicates aborts naming the family. |
| Loader.LoadHostKey | svr-runopts.c:615-671 | At most one slot changes: the slot for the detected type, when the build has it and it was empty. It then holds the read key. Filled slots keep their keys. The process aborts only on a fatal duplicate. Only compiled slots are ever filled. |
| Loader.LoadSeq | svr-runopts.c:681-694 | Chaining the load calls with non-fatal duplicates never aborts, and it stalls exactly when some file's loop does not finish. Which key each slot then holds is `Loader.FirstLoadWins`. |
| Loader.FirstProvided | svr-runopts.c:633-667 | Only a slot the build has can be supplied by a file. |
| Loader.FirstLoadWins | svr-runopts.c:602-612 | With non-fatal duplicates, each slot keeps the key it already held. Otherwise it gets the key of the first file whose read detected its type. |
| Resolver.KeepBuilt | svr-runopts.c:681-694 | The `#if` guards around the load calls keep exactly the calls whose family the build has. |
| Resolver.KeepBuiltAscending | svr-runopts.c:681-694 | Dropping the calls for families the build lacks keeps the remaining calls in their original order. |
| Resolver.CallOrder | svr-runopts.c:681-694 | `load_all_hostkeys` loads the RSA, DSS, ECDSA and ED25519 files, each exactly when the build has that family. The calls come in that order. Each call requests its own family, and the ECDSA file requests a 521-bit key. |
| Resolver.LoadedBundleHasKey | svr-runopts.c:673-694 | After loading every file into an empty bundle with non-fatal duplicates, each slot holds the first key a file supplied for it. Some host key is present exactly when some file supplied a key for a slot the build has. |
| Listeners.AddPortAndAddress | svr-runopts.c:560-589 | A full table ignores the option. Otherwise a failed split aborts with "Bad -p argument" and an empty port aborts with "Bad port". A good option appends one entry: a bare value is the port, and a missing address becomes the default address. |
| Listeners.AddAll | svr-runopts.c:560-589 | Options are added in order. The table never grows past the limit, and grows by one per option until it reaches the limit. The entries already in the table are kept. The `i`-th new entry is the `i`-th option's address and port, with a bare value taken as the port and a missing address replaced by the default address. Parsing aborts exactly when a rejected option comes before the limit is reached. |
| Listeners.IgnoredBeyondLimit | svr-runopts.c:563-565 | Options past the limit are ignored silently, even malformed ones. |
| Listeners.ListenTable | svr-runopts.c:441-445 | After parsing, the table holds between one entry and the limit (or one entry if the limit is zero). With no `-p` option, or a limit of zero, it holds exactly the single default entry, with the default address and port. Otherwise entry `i` is built from the `i`-th `-p` option, and the table holds one entry per option up to the limit. Parsing aborts exactly when a rejected option comes before the limit. |

## Left out

- `readhostkey`, `signkey_generate`, `expand_homedir_path`, `new_sign_key` and `sign_key_free` are not part of this model. Reading and generation are environment answers (`Loader.Round`). Key encoding and key generation are opaque, and memory release has no counterpart.
- Loader.ReadOrGenerate: the loop is modelled over a finite list of environment answers. A run that keeps regenerating past the end of that list is reported as `Unfinished` (startup `Stalled`), not as a non-terminating run.
- Loader.ReadOrGenerate: a failed read is taken to leave the detected type at "any". What `readhostkey` does to its type argument on failure is outside this model.
- Loader.LoadHostKey: the requested type of a `KeyFile` only says what generation would produce. Which ECDSA size generating a 521-bit request actually makes is decided by code outside this model; the model uses the type the re-read detects.
- The `sigalgs` table is defined outside this file. The model accepts any table, and a signature code shared by no key type is `Registry.OtherCode`. Such entries are never disabled.
- Listeners.AddPortAndAddress requires a split answer with at least one part. With neither part, the source would use a missing address as the port.
- `split_address_port` is an environment answer, and the values of `DROPBEAR_MAX_PORTS`, `DROPBEAR_DEFPORT` and `DROPBEAR_DEFADDRESS` are parameters; they are defined outside this file.
- The command-line scan and flag-to-field mapping (lines 235-425), including the `-r` key-file rotation, are plain field assignment.
- The default key-file paths (lines 427-438) are left out. Files are identified by their environment answers, not their paths.
- The banner file (447-465), group lookup (467-477), receive window, auth tries, keepalive, idle timeout, master password, re-exec descriptor, inetd check and plugin arguments (479-557) are external library calls or plain assignments.
- `printhelp`, `print_version`, logging and `TRACE` are output only. Process exit is the `Abort` outcome, and its message is `Outcomes.Message`.
