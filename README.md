# alecci runtime: variant values and the Win32 barrier

A verified Dafny model of two sequential pieces of the alecci runtime.

- **The variant value** (`src/alecci/runtime/variant_support.c`). A variant is an
  `int` type tag plus a 16-byte buffer. There are nine tag constants: int 0,
  float 1, string 2, semaphore 3, mutex 4, barrier 5, thread 6, array 7 and
  null 8. The model covers the constructors, `variant_type`, the
  `variant_is_*` tests, the tag-checked getters, `variant_copy`,
  `variant_equals`, `variant_to_string`, `variant_to_int` and
  `variant_to_float`. Module `VariantSupport` holds these as pure functions
  over `datatype Variant = Variant(tag, data)`, where `data` is a 16-byte
  sequence.
  - A wrong-tag getter prints a line on stderr and returns a default. The
    model returns the default together with a `diagnostic` flag.
  - The bytes that memcpy writes come from module `Bytes`. It fixes the host
    as little-endian, with a 32-bit two's-complement `int` and 8-byte
    pointers. Its encode and decode functions are proved to be mutual
    inverses.
  - `%d` rendering is module `Decimal`. Its parser is proved to read back
    every rendered integer.
- **The generation-counted barrier** (`src/alecci/runtime/windows_pthread.c`).
  Module `WindowsPthread` holds a `Barrier` class with the `count`, `waiting`
  and `generation` fields, all `unsigned` and wrapping modulo 2^32.
  - `BarrierInit`, `BarrierWait` and `BarrierDestroy` take a nullable
    reference, so the source's null checks are modelled.
  - `BarrierWait` is the locked region of `pthread_barrier_wait`, done as one
    atomic step. It returns the generation the caller recorded on entry and
    whether the caller must sleep.
  - `MayLeave` (tested by `StillWaiting`) is the exit condition of the wait
    loop.
  - The counters are also a value, `BarrierState`, with a step function
    `Arrive`. The lemmas about rounds, reuse and release are proved on that
    value. `BarrierWait` is proved to perform exactly that step.

Three facts about the code shape the model:
- A float is displayed with printf's `%f` (variant_support.c line 201), whose text the host renders.
- `variant_get_string` on a wrong tag returns NULL (line 160).
- `variant_to_string` writes into a 256-byte buffer (line 193), so its text is cut at 255 bytes.

## Model

| member | source | states |
|---|---|---|
| Bytes.DecodeEncodeLE | src/alecci/runtime/variant_support.c:29 | reading back the low `width` little-endian bytes of any `n < 256^width` gives `n` |
| Bytes.EncodeInt32 | src/alecci/runtime/variant_support.c:29 | the four bytes copied from an `int` read, as an unsigned little-endian number, as the `int` modulo 2^32 (two's complement) |
| Bytes.DecodeInt32 | src/alecci/runtime/variant_support.c:143 | the `int` rebuilt from four bytes is congruent modulo 2^32 to their unsigned little-endian value |
| Bytes.EncodeAddress | src/alecci/runtime/variant_support.c:53 | the eight bytes copied from a pointer read back, little-endian, as that pointer |
| Bytes.DecodeAddress | src/alecci/runtime/variant_support.c:173 | the pointer rebuilt from eight bytes re-encodes to exactly those bytes |
| Bytes.EncodeDecodeLE | src/alecci/runtime/variant_support.c:143 | every byte string is the encoding of the value it decodes to |
| Bytes.Int32RoundTrip | src/alecci/runtime/variant_support.c:142-144 | copying an `int` into four bytes and back yields the same `int`, negatives included |
| Bytes.Int32BytesRoundTrip | src/alecci/runtime/variant_support.c:142-144 | any four bytes are exactly the bytes of the `int` read from them |
| Bytes.AddressRoundTrip | src/alecci/runtime/variant_support.c:172-174 | copying a pointer into eight bytes and back yields the same pointer |
| Bytes.AddressBytesRoundTrip | src/alecci/runtime/variant_support.c:172-174 | any eight bytes are exactly the bytes of the pointer read from them |
| Bytes.EncodeInt32Injective | src/alecci/runtime/variant_support.c:29 | two `int`s have the same four bytes if and only if they are equal |
| Bytes.EncodeAddressInjective | src/alecci/runtime/variant_support.c:53 | two pointers have the same eight bytes if and only if they are equal |
| Decimal.NatDigitsRoundTrip | src/alecci/runtime/variant_support.c:198 | the digit string of a natural number parses back to that number |
| Decimal.Render | src/alecci/runtime/variant_support.c:198 | `%d` text: non-empty, starting with '-' exactly for negative numbers, and digits everywhere else |
| Decimal.NatDigitsNoLeadingZero | src/alecci/runtime/variant_support.c:198 | the digit string starts with '0' only for zero itself |
| Decimal.NatDigitsLength | src/alecci/runtime/variant_support.c:198 | a number below 10^k has at most k digits |
| Decimal.RenderRoundTrip | src/alecci/runtime/variant_support.c:198 | the `%d` text of any integer, sign included, parses back to that integer |
| Decimal.RenderInjective | src/alecci/runtime/variant_support.c:198 | two integers render alike if and only if they are equal |
| Decimal.RenderInt32Short | src/alecci/runtime/variant_support.c:198 | the `%d` text of an `int` is at most 11 characters, so it fits the buffer |
| VariantSupport.Store | src/alecci/runtime/variant_support.c:28-29 | after memset and memcpy the buffer starts with the copied bytes and every later byte is 0 |
| VariantSupport.StoreInjective | src/alecci/runtime/variant_support.c:28-29 | two stores of equal-length values give the same buffer if and only if the values are equal |
| VariantSupport.TypeName | src/alecci/runtime/variant_support.c:85-98 | the name is "unknown" exactly when the tag is outside 0..8 |
| VariantSupport.TypeNameRoundTrip | src/alecci/runtime/variant_support.c:85-98 | each tag 0..8 has its own name, which maps back to that tag; every other tag maps to no tag |
| VariantSupport.IsInt | src/alecci/runtime/variant_support.c:100-102 | `variant_is_int` holds exactly when `variant_type` gives "int" |
| VariantSupport.IsFloat | src/alecci/runtime/variant_support.c:104-106 | `variant_is_float` holds exactly when `variant_type` gives "float" |
| VariantSupport.IsString | src/alecci/runtime/variant_support.c:108-110 | `variant_is_string` holds exactly when `variant_type` gives "string" |
| VariantSupport.IsSemaphore | src/alecci/runtime/variant_support.c:112-114 | `variant_is_semaphore` holds exactly when `variant_type` gives "semaphore" |
| VariantSupport.IsMutex | src/alecci/runtime/variant_support.c:116-118 | `variant_is_mutex` holds exactly when `variant_type` gives "mutex" |
| VariantSupport.IsBarrier | src/alecci/runtime/variant_support.c:120-122 | `variant_is_barrier` holds exactly when `variant_type` gives "barrier" |
| VariantSupport.IsThread | src/alecci/runtime/variant_support.c:124-126 | `variant_is_thread` holds exactly when `variant_type` gives "thread" |
| VariantSupport.IsArray | src/alecci/runtime/variant_support.c:128-130 | `variant_is_array` holds exactly when `variant_type` gives "array" |
| VariantSupport.IsNull | src/alecci/runtime/variant_support.c:132-134 | `variant_is_null` holds exactly when `variant_type` gives "null"; since the nine names differ, at most one test holds |
| VariantSupport.IsPointerKind | src/alecci/runtime/variant_support.c:168 | the range test accepts exactly the variants `variant_type` names string, semaphore, mutex, barrier, thread or array |
| VariantSupport.GetInt | src/alecci/runtime/variant_support.c:137-145 | a diagnostic is emitted exactly when the tag is not int, and then the result is 0; otherwise the result is the `int` whose bytes lead the buffer |
| VariantSupport.GetFloat | src/alecci/runtime/variant_support.c:147-155 | a diagnostic exactly when the tag is not float, and then the result is 0.0; otherwise the leading eight bytes |
| VariantSupport.GetString | src/alecci/runtime/variant_support.c:157-165 | a diagnostic exactly when the tag is not string, and then NULL; otherwise the pointer whose bytes lead the buffer |
| VariantSupport.GetPointer | src/alecci/runtime/variant_support.c:167-175 | accepts exactly the tags 2..7; for any other tag, a diagnostic and NULL |
| VariantSupport.CreateInt | src/alecci/runtime/variant_support.c:25-31 | tag int, `variant_get_int` returns the value with no diagnostic, and bytes 4..15 are 0 |
| VariantSupport.CreateFloat | src/alecci/runtime/variant_support.c:33-39 | tag float, `variant_get_float` returns the value with no diagnostic, and bytes 8..15 are 0 |
| VariantSupport.CreateString | src/alecci/runtime/variant_support.c:41-47 | tag string; both `variant_get_string` and `variant_get_pointer` return the stored pointer; bytes 8..15 are 0 |
| VariantSupport.CreatePointer | src/alecci/runtime/variant_support.c:49-55 | stores whatever tag it is given; `variant_get_pointer` returns the pointer for tags 2..7 and NULL with a diagnostic otherwise; bytes 0..7 hold the pointer whatever the tag, and bytes 8..15 are 0 |
| VariantSupport.CreateSemaphore | src/alecci/runtime/variant_support.c:57-59 | tag semaphore, and `variant_get_pointer` returns the handle |
| VariantSupport.CreateMutex | src/alecci/runtime/variant_support.c:61-63 | tag mutex, and `variant_get_pointer` returns the handle |
| VariantSupport.CreateBarrier | src/alecci/runtime/variant_support.c:65-67 | tag barrier, and `variant_get_pointer` returns the handle |
| VariantSupport.CreateThread | src/alecci/runtime/variant_support.c:69-71 | tag thread, and `variant_get_pointer` returns the handle |
| VariantSupport.CreateArray | src/alecci/runtime/variant_support.c:73-75 | tag array, and `variant_get_pointer` returns the handle |
| VariantSupport.CreateNull | src/alecci/runtime/variant_support.c:77-82 | tag null, an all-zero buffer, and `variant_get_pointer` refuses it |
| VariantSupport.Copy | src/alecci/runtime/variant_support.c:178-183 | the copy has the same tag and the same 16 bytes, so `variant_equals` holds between copy and original |
| VariantSupport.Equals | src/alecci/runtime/variant_support.c:185-190 | `variant_equals` holds exactly when the tags agree and all 16 payload bytes agree |
| VariantSupport.EqualsIsValueEquality | src/alecci/runtime/variant_support.c:185-190 | tag-then-memcmp equality holds exactly when the two variants are the same value; it is reflexive, symmetric and transitive |
| VariantSupport.IntNeverEqualsFloat | src/alecci/runtime/variant_support.c:185-190 | an int variant never equals a float variant, whatever the values |
| VariantSupport.EqualsCreateInt | src/alecci/runtime/variant_support.c:185-190 | two int variants are equal if and only if they hold the same `int` |
| VariantSupport.EqualsCreatePointer | src/alecci/runtime/variant_support.c:185-190 | two pointer variants are equal if and only if both their tags and their pointers agree |
| VariantSupport.NullTaggedPointerEqualsNull | src/alecci/runtime/variant_support.c:49-55 | a pointer stored under the null tag equals `variant_create_null()` if and only if the pointer is NULL, because the payload bytes are compared whatever the tag |
| VariantSupport.Clip | src/alecci/runtime/variant_support.c:193 | snprintf into the 256-byte buffer leaves a prefix of the text: all of it when it fits, and exactly its first 255 characters otherwise |
| VariantSupport.AtAddress | src/alecci/runtime/variant_support.c:206-220 | a pointer kind's text starts with "<kind>@" and continues with the host's `%p` text |
| VariantSupport.ToString | src/alecci/runtime/variant_support.c:192-228 | under 256 characters; an int's text is exactly its `%d` text, which parses back to the stored `int`; null gives "null"; each handle kind starts with its `variant_type` name and "@"; other tags give "unknown(tag=N)"; float and string go through the host's `%f` and `%s` |
| VariantSupport.ToInt | src/alecci/runtime/variant_support.c:231-241 | the result is int or null; null, with a diagnostic, exactly when the input is neither int nor float; an int comes back unchanged; a float becomes the int the host's cast gives |
| VariantSupport.ToFloat | src/alecci/runtime/variant_support.c:243-253 | the result is float or null; null, with a diagnostic, exactly when the input is neither int nor float; a float comes back unchanged; an int becomes the float the host's widening gives |
| VariantSupport.ConversionsIdempotent | src/alecci/runtime/variant_support.c:231-253 | converting a second time changes nothing, and for an int or float variant the second `variant_to_int` and the second `variant_to_float` are both silent |
| WindowsPthread.Initial | src/alecci/runtime/windows_pthread.c:124-126 | the state init leaves satisfies the invariant `0 <= waiting < count` |
| WindowsPthread.Valid | src/alecci/runtime/windows_pthread.c:121 | the invariant between calls: `count > 0` as init checks, and `0 <= waiting < count` |
| WindowsPthread.Arrive | src/alecci/runtime/windows_pthread.c:133-140 | the arriver records the current generation; `count` never changes; the last arrival empties `waiting` and changes the generation, and any other arrival leaves the generation alone |
| WindowsPthread.MayLeave | src/alecci/runtime/windows_pthread.c:142 | a sleeper may leave exactly when the generation differs from the one it recorded |
| WindowsPthread.ArriveExact | src/alecci/runtime/windows_pthread.c:133-140 | from a valid state, a non-final arrival adds exactly one to `waiting` and changes nothing else; the arrival that brings `waiting` to `count` resets it to 0 and advances `generation` by one modulo 2^32; the arriver records the old generation; `count` is kept and so is the invariant |
| WindowsPthread.SleeperBlockedOnEntry | src/alecci/runtime/windows_pthread.c:133-144 | an arriver that must sleep cannot leave on its first test of the loop condition |
| WindowsPthread.Arrivals | src/alecci/runtime/windows_pthread.c:134-137 | any number of arrivals keeps the invariant and the count |
| WindowsPthread.ArriveCounters | src/alecci/runtime/windows_pthread.c:134-137 | one arrival moves `waiting` from `a mod count` to `(a+1) mod count` and `generation` from `g + a div count` to `g + (a+1) div count`, modulo 2^32 |
| WindowsPthread.ArriveRounds | src/alecci/runtime/windows_pthread.c:134-137 | one arrival, stated with the number of completed rounds: the generation stays, or moves to the next round modulo 2^32 |
| WindowsPthread.ArrivalsCounters | src/alecci/runtime/windows_pthread.c:134-137 | after n arrivals, `waiting` is the number of arrivals since the last completed round and `generation` has advanced by the number of completed rounds, modulo 2^32 |
| WindowsPthread.BarrierReusable | src/alecci/runtime/windows_pthread.c:124-137 | from a fresh barrier, k·count arrivals leave `waiting == 0` and `generation == k mod 2^32` |
| WindowsPthread.SleeperReleasedAtRoundEnd | src/alecci/runtime/windows_pthread.c:133-145 | a sleeper may not leave while its round is incomplete, and may leave once the arrival that completes the round has happened |
| WindowsPthread.Barrier.constructor | src/alecci/runtime/windows_pthread.c:111-117 | barrier storage holds whatever counters it was given before init |
| WindowsPthread.BarrierInit | src/alecci/runtime/windows_pthread.c:119-128 | a null barrier or a zero count gives -1 and, for a barrier, leaves it untouched; otherwise it returns 0 with `count` set and `waiting` and `generation` at 0 |
| WindowsPthread.BarrierWait | src/alecci/runtime/windows_pthread.c:130-147 | a null barrier gives -1; otherwise the call ends with 0, the counters are exactly one `Arrive` step of the old ones, and the caller sleeps exactly when it was not the last arrival |
| WindowsPthread.StillWaiting | src/alecci/runtime/windows_pthread.c:142 | a sleeper goes back to sleep exactly when the generation still equals the one it recorded |
| WindowsPthread.BarrierDestroy | src/alecci/runtime/windows_pthread.c:149-154 | -1 for a null barrier and 0 otherwise; the counters are not modified |

## Left out

- The stderr diagnostics are modelled only as the `diagnostic` flag; their text is not modelled.
- Floating point. A `double` is its eight-byte bit pattern. The `(int)` cast at variant_to_int and the `(double)` cast at variant_to_float are parameters (`truncate`, `widen`). So the model proves which tag a conversion yields, but not which number.
- VariantSupport.ToString: the `%f` text of a float, the characters `%s` reads through a string's pointer, and the `%p` text of an address are host-defined. They are the `Host` parameters, so only the "<kind>@" prefix, the int and null texts, the unknown-tag text and the 255-character cut are proved.
- The function-static buffer that `variant_to_string` returns, and the aliasing between successive calls, are not modelled. Each call yields a fresh string.
- `variant_to_string` takes a pointer to the variant. The model takes the variant itself, so a NULL argument is not modelled.
- Byte order, the width of `int` and the width of pointers come from the host. The model fixes them as little-endian, 4 bytes and 8 bytes.
- The barrier's critical section and condition variable (EnterCriticalSection, WakeAllConditionVariable, SleepConditionVariableCS) are concurrency and are not modelled. The locked region is one atomic step, and the sleeping loop is reduced to its exit test, `StillWaiting`.
- `pthread_barrier_destroy` releasing the critical section is not modelled. So destroying a barrier with sleepers is not modelled either.
- The Win32 semaphore wrappers (`sem_init`, `sem_wait`, `sem_post`, `sem_destroy`) are left out. They only forward to the OS.
- The thread shims (`thread_wrapper`, `pthread_create`, `pthread_join`) are left out. They are OS thread creation, allocation and debug output.
