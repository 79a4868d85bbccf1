/**
 * The safe local-storage layer (src/utils/localStorage.ts): an availability
 * probe, reads that fall back to a default, writes with quota protection and
 * array truncation, removal, clearing of the app's namespace, history
 * truncation and a per-key debounce table.
 *
 * The browser's storage is a `map<string, string>` held by a `Storage` object.
 * What the host decides on its own (whether storage exists at all, whether a
 * write fits in the quota, and the JSON text of a value) is given by a `Host`.
 */
module LocalStorage {
  import opened Types
  import opened Strings
  import opened AppConstants

  /* ---------------------------------------------------------------------- */
  /* Values and the host                                                     */
  /* ---------------------------------------------------------------------- */

  /**
   * A value the app hands to the layer: an array, whose elements the quota
   * path truncates, or one of the app's stored records. A date is the string
   * `Date.toDateString` gives, represented by its day number.
   */
  datatype Value =
    | ArrayValue(elements: seq<Value>)
    | MessageValue(message: Message)
    | LevelValue(level: UserLevel)
    | NumberValue(number: int)
    | DayValue(day: int)
    | NullValue

  /**
   * What the host provides. `enabled` is false where there is no `window` or
   * where the storage refuses every access; `fits(m)` says whether the storage
   * content `m` is within the browser's quota (a `setItem` that would exceed
   * it throws `QuotaExceededError`); `stringify` and `parse` are the host's
   * `JSON.stringify` and `JSON.parse` (`None` where parsing throws).
   */
  datatype Host = Host(
    enabled: bool,
    fits: map<string, string> -> bool,
    stringify: Value -> string,
    parse: string -> Option<Value>)

  type Items = map<string, string>

  /** The key and value the availability probe writes and removes again. */
  const TEST_KEY: string := "__test__"
  const TEST_VALUE: string := "test"

  /** The namespace `clearAppStorage` empties. */
  const APP_KEY_PREFIX: string := "english-tutor-"

  const BYTES_PER_MB: nat := 1024 * 1024

  /** Bytes of the UTF-8 encoding of one character. */
  function Utf8Width(c: char): (n: nat)
    ensures 1 <= n <= 4
  {
    if c as int < 0x80 then 1
    else if c as int < 0x800 then 2
    else if c as int < 0x10000 then 3
    else 4
  }

  /** `new Blob([s]).size`: the UTF-8 length of `s`. */
  function Utf8Length(s: string): (n: nat)
    ensures |s| <= n <= 4 * |s|
    decreases |s|
  {
    if s == [] then 0 else Utf8Width(s[0]) + Utf8Length(s[1..])
  }

  /**
   * `estimateSize(value) > QUOTA_MB`: the JSON text takes more than
   * `QUOTA_MB` mebibytes. Dividing the byte count by 2^20 is exact, so the
   * comparison is one on whole bytes.
   */
  predicate Oversize(h: Host, v: Value)
  {
    Utf8Length(h.stringify(v)) > QUOTA_MB * BYTES_PER_MB
  }

  /* ---------------------------------------------------------------------- */
  /* Slicing                                                                 */
  /* ---------------------------------------------------------------------- */

  /** `a.slice(start)` for an integer `start`: a negative start counts from the end. */
  function SliceFrom<T>(a: seq<T>, start: int): (r: seq<T>)
    ensures start < 0 && -start <= |a| ==> r == a[|a| + start..]
    ensures start < 0 && -start > |a| ==> r == a
    ensures 0 <= start <= |a| ==> r == a[start..]
    ensures start > |a| ==> r == []
  {
    if start < 0 then (if -start <= |a| then a[|a| + start..] else a)
    else if start <= |a| then a[start..]
    else []
  }

  /** `truncateMessages(messages, maxMessages)`. */
  function TruncateMessages<T>(messages: seq<T>, maxMessages: int): seq<T>
  {
    if |messages| <= maxMessages then messages else SliceFrom(messages, -maxMessages)
  }

  /** `truncateMessages` with its default cap. */
  function TruncateStoredMessages<T>(messages: seq<T>): (r: seq<T>)
    ensures |r| <= MAX_MESSAGES_STORED && |r| <= |messages|
    ensures r == messages[|messages| - |r|..]
  {
    TruncateMessages(messages, MAX_MESSAGES_STORED)
  }

  /** A short enough history is returned as it is. */
  lemma TruncateKeepsShort<T>(messages: seq<T>, maxMessages: int)
    requires |messages| <= maxMessages
    ensures TruncateMessages(messages, maxMessages) == messages
  {
  }

  /** A longer history keeps exactly its last `maxMessages` entries, in order. */
  lemma TruncateKeepsLast<T>(messages: seq<T>, maxMessages: int)
    requires 0 < maxMessages < |messages|
    ensures var r := TruncateMessages(messages, maxMessages);
      |r| == maxMessages && r == messages[|messages| - maxMessages..]
      && forall i :: 0 <= i < |r| ==> r[i] == messages[|messages| - maxMessages + i]
  {
  }

  /** A cap of zero keeps everything, since `slice(-0)` is `slice(0)`. */
  lemma TruncateZeroKeepsAll<T>(messages: seq<T>)
    ensures TruncateMessages(messages, 0) == messages
  {
  }

  /** Truncating twice with the same non-negative cap is truncating once. */
  lemma TruncateIdempotent<T>(messages: seq<T>, maxMessages: int)
    requires maxMessages >= 0
    ensures TruncateMessages(TruncateMessages(messages, maxMessages), maxMessages)
      == TruncateMessages(messages, maxMessages)
  {
    var r := TruncateMessages(messages, maxMessages);
    if maxMessages < |messages| && maxMessages > 0 {
      assert |r| == maxMessages;
    }
  }

  /** A negative cap drops the first `-maxMessages` entries instead, so repeating it drops more. */
  lemma TruncateNegativeDropsFront<T>(messages: seq<T>, maxMessages: int)
    requires maxMessages < 0 && -maxMessages <= |messages|
    ensures TruncateMessages(messages, maxMessages) == messages[-maxMessages..]
  {
  }

  /**
   * `value.slice(-Math.floor(value.length * 0.7))`, with the product taken
   * exactly as `7 * n / 10`.
   */
  function KeepSeventyPercent(a: seq<Value>): seq<Value>
  {
    SliceFrom(a, -((|a| * 7) / 10))
  }

  /** `value.slice(-Math.floor(value.length * 0.5))`. */
  function KeepHalf(a: seq<Value>): seq<Value>
  {
    SliceFrom(a, -(|a| / 2))
  }

  /**
   * Both truncations keep a suffix: the last `⌊7n/10⌋` (or `⌊n/2⌋`) elements,
   * except that a single element (where the count rounds to zero) is kept
   * whole by `slice(-0)`.
   */
  lemma QuotaTruncationKeepsSuffix(a: seq<Value>)
    ensures |a| >= 2 ==>
      KeepSeventyPercent(a) == a[|a| - (|a| * 7) / 10..] && 0 < |KeepSeventyPercent(a)| < |a|
    ensures |a| >= 2 ==> KeepHalf(a) == a[|a| - |a| / 2..] && 0 < |KeepHalf(a)| < |a|
    ensures |a| <= 1 ==> KeepSeventyPercent(a) == a && KeepHalf(a) == a
  {
  }

  /* ---------------------------------------------------------------------- */
  /* The storage operations as functions of the storage content             */
  /* ---------------------------------------------------------------------- */

  /** `localStorage.setItem(key, text)`: `None` where it throws for the quota. */
  function Write(h: Host, m: Items, key: string, text: string): (r: Option<Items>)
    ensures r.Some? <==> h.fits(m[key := text])
    ensures r.Some? ==> r.value == m[key := text]
  {
    if h.fits(m[key := text]) then Some(m[key := text]) else None
  }

  /**
   * `isLocalStorageAvailable()`: true when a test entry can be written. The
   * probe then removes that entry, and so any earlier entry under the test key.
   */
  predicate Available(h: Host, m: Items)
  {
    h.enabled && h.fits(m[TEST_KEY := TEST_VALUE])
  }

  /** The storage content after the availability probe. */
  function Probed(h: Host, m: Items): (r: Items)
    ensures Available(h, m) ==> r == m - {TEST_KEY}
    ensures !Available(h, m) ==> r == m
  {
    if Available(h, m) then m[TEST_KEY := TEST_VALUE] - {TEST_KEY} else m
  }

  /** The entries outside the app's namespace. */
  function WithoutAppKeys(m: Items): (r: Items)
    ensures forall k :: k in r <==> k in m && !StartsWith(k, APP_KEY_PREFIX)
    ensures forall k :: k in r ==> r[k] == m[k]
  {
    map k | k in m && !StartsWith(k, APP_KEY_PREFIX) :: m[k]
  }

  /** `clearAppStorage()`. */
  function ClearApp(h: Host, m: Items): Items
  {
    if Available(h, m) then WithoutAppKeys(Probed(h, m)) else m
  }

  /** `removeItem(key)`. */
  function Remove(h: Host, m: Items, key: string): Items
  {
    if Available(h, m) then Probed(h, m) - {key} else m
  }

  /** `getItemSafe(key, defaultValue)`: the value read and the storage content after. */
  function GetItem(h: Host, m: Items, key: string, defaultValue: Value): (Value, Items)
  {
    var m1 := Probed(h, m);
    if !Available(h, m) then (defaultValue, m1)
    else if key !in m1 || m1[key] == "" then (defaultValue, m1)
    else match h.parse(m1[key])
      case Some(v) => (v, m1)
      case None => (defaultValue, m1)
  }

  /**
   * The `QuotaExceededError` handler of `setItemSafe`: an array is retried at
   * half its length, and when that write also fails the app's keys are cleared.
   */
  function RecoverFromQuota(h: Host, m: Items, key: string, value: Value): (bool, Items)
  {
    if value.ArrayValue? then
      match Write(h, m, key, h.stringify(ArrayValue(KeepHalf(value.elements))))
      case Some(m2) => (true, m2)
      case None => (false, ClearApp(h, m))
    else (false, m)
  }

  /** `setItemSafe(key, value)`: the result and the storage content after. */
  function SetItem(h: Host, m: Items, key: string, value: Value): (bool, Items)
  {
    var m1 := Probed(h, m);
    if !Available(h, m) then (false, m1)
    else if Oversize(h, value) then
      if value.ArrayValue? then
        match Write(h, m1, key, h.stringify(ArrayValue(KeepSeventyPercent(value.elements))))
        case Some(m2) => (true, m2)
        case None => RecoverFromQuota(h, m1, key, value)
      else (false, m1)
    else
      match Write(h, m1, key, h.stringify(value))
      case Some(m2) => (true, m2)
      case None => RecoverFromQuota(h, m1, key, value)
  }

  /* ---------------------------------------------------------------------- */
  /* What the operations promise                                             */
  /* ---------------------------------------------------------------------- */

  /** Without storage no operation writes, reads or removes anything. */
  lemma UnavailableChangesNothing(h: Host, m: Items, key: string, value: Value, defaultValue: Value)
    requires !Available(h, m)
    ensures SetItem(h, m, key, value) == (false, m)
    ensures GetItem(h, m, key, defaultValue) == (defaultValue, m)
    ensures Remove(h, m, key) == m && ClearApp(h, m) == m
  {
  }

  /** A value within the quota is stored as its JSON text under `key`. */
  lemma SetItemStoresValue(h: Host, m: Items, key: string, value: Value)
    requires Available(h, m) && !Oversize(h, value)
    requires h.fits((m - {TEST_KEY})[key := h.stringify(value)])
    ensures SetItem(h, m, key, value) == (true, (m - {TEST_KEY})[key := h.stringify(value)])
  {
  }

  /** An oversized array is stored truncated to its last 70%, and the write reports success. */
  lemma SetItemTruncatesOversizedArray(h: Host, m: Items, key: string, value: Value)
    requires Available(h, m) && Oversize(h, value) && value.ArrayValue?
    requires h.fits((m - {TEST_KEY})[key := h.stringify(ArrayValue(KeepSeventyPercent(value.elements)))])
    ensures SetItem(h, m, key, value)
      == (true, (m - {TEST_KEY})[key := h.stringify(ArrayValue(KeepSeventyPercent(value.elements)))])
  {
  }

  /** An oversized value that is not an array is not written. */
  lemma SetItemRejectsOversizedOther(h: Host, m: Items, key: string, value: Value)
    requires Available(h, m) && Oversize(h, value) && !value.ArrayValue?
    ensures SetItem(h, m, key, value) == (false, m - {TEST_KEY})
  {
  }

  /** After a quota error an array is retried at half its length. */
  lemma SetItemRetriesHalf(h: Host, m: Items, key: string, value: Value)
    requires Available(h, m) && !Oversize(h, value) && value.ArrayValue?
    requires !h.fits((m - {TEST_KEY})[key := h.stringify(value)])
    requires h.fits((m - {TEST_KEY})[key := h.stringify(ArrayValue(KeepHalf(value.elements)))])
    ensures SetItem(h, m, key, value)
      == (true, (m - {TEST_KEY})[key := h.stringify(ArrayValue(KeepHalf(value.elements)))])
  {
  }

  /** When the retry fails too, the app's keys are cleared and the write reports failure. */
  lemma SetItemClearsWhenRetryFails(h: Host, m: Items, key: string, value: Value)
    requires Available(h, m) && !Oversize(h, value) && value.ArrayValue?
    requires !h.fits((m - {TEST_KEY})[key := h.stringify(value)])
    requires !h.fits((m - {TEST_KEY})[key := h.stringify(ArrayValue(KeepHalf(value.elements)))])
    ensures SetItem(h, m, key, value) == (false, ClearApp(h, m - {TEST_KEY}))
  {
  }

  /** A quota error on a value that is not an array changes nothing more. */
  lemma SetItemQuotaOther(h: Host, m: Items, key: string, value: Value)
    requires Available(h, m) && !Oversize(h, value) && !value.ArrayValue?
    requires !h.fits((m - {TEST_KEY})[key := h.stringify(value)])
    ensures SetItem(h, m, key, value) == (false, m - {TEST_KEY})
  {
  }

  /**
   * A write that reports success changed the entry under `key` and no other
   * entry except the probe's test key; one that reports failure changed at
   * most the app's namespace and the test key.
   */
  lemma SetItemFrame(h: Host, m: Items, key: string, value: Value, k: string)
    requires k != key && k != TEST_KEY
    ensures var (ok, r) := SetItem(h, m, key, value);
      ok ==> (k in r <==> k in m) && (k in m ==> r[k] == m[k])
    ensures var (ok, r) := SetItem(h, m, key, value);
      !StartsWith(k, APP_KEY_PREFIX) ==> (k in r <==> k in m) && (k in m ==> r[k] == m[k])
  {
  }

  /**
   * Reading back a value stored within the quota gives that value, when its
   * JSON text is not empty and parses back to it.
   */
  lemma GetAfterSet(h: Host, m: Items, key: string, value: Value, defaultValue: Value)
    requires Available(h, m) && !Oversize(h, value)
    requires h.fits((m - {TEST_KEY})[key := h.stringify(value)])
    requires h.stringify(value) != "" && h.parse(h.stringify(value)) == Some(value)
    requires Available(h, SetItem(h, m, key, value).1)
    requires key != TEST_KEY
    ensures GetItem(h, SetItem(h, m, key, value).1, key, defaultValue).0 == value
  {
    SetItemStoresValue(h, m, key, value);
  }

  /** A missing or empty entry, or one that does not parse, reads as the default. */
  lemma GetItemDefaults(h: Host, m: Items, key: string, defaultValue: Value)
    requires key != TEST_KEY
    requires key !in m || m[key] == "" || h.parse(m[key]).None?
    ensures GetItem(h, m, key, defaultValue).0 == defaultValue
  {
  }

  /** After a removal the key reads as the default. */
  lemma GetAfterRemove(h: Host, m: Items, key: string, defaultValue: Value)
    requires Available(h, m)
    ensures key !in Remove(h, m, key)
    ensures Available(h, Remove(h, m, key)) ==>
      GetItem(h, Remove(h, m, key), key, defaultValue).0 == defaultValue
  {
  }

  /**
   * Clearing removes exactly the keys in the app's namespace (and the probe's
   * test key) and leaves every other entry as it was.
   */
  lemma ClearAppExact(h: Host, m: Items, k: string)
    requires Available(h, m)
    ensures k in ClearApp(h, m) <==> k in m && k != TEST_KEY && !StartsWith(k, APP_KEY_PREFIX)
    ensures k in ClearApp(h, m) ==> ClearApp(h, m)[k] == m[k]
  {
  }

  /** The keys the app stores under. */
  const APP_STORAGE_KEYS: seq<string> :=
    [KEY_MESSAGES, KEY_VOCABULARY, KEY_LEVEL, KEY_STREAK, KEY_LAST_PRACTICE,
     KEY_TOPICS, KEY_WEAK_AREAS, KEY_MASTERED_PATTERNS]

  /** Every key the app stores under lies in the cleared namespace. */
  lemma ClearAppRemovesAppKeys(h: Host, m: Items, i: nat)
    requires Available(h, m) && i < |APP_STORAGE_KEYS|
    ensures APP_STORAGE_KEYS[i] !in ClearApp(h, m)
  {
    assert StartsWith(APP_STORAGE_KEYS[i], APP_KEY_PREFIX);
  }

  /* ---------------------------------------------------------------------- */
  /* The storage object                                                      */
  /* ---------------------------------------------------------------------- */

  class Storage {
    const host: Host
    var items: Items

    constructor(host: Host, items: Items)
      ensures this.host == host && this.items == items
    {
      this.host := host;
      this.items := items;
    }

    /** `localStorage.setItem(key, text)`, reporting whether it did not throw. */
    method TryWrite(key: string, text: string) returns (ok: bool)
      modifies this
      ensures ok == host.fits(old(items)[key := text])
      ensures items == if ok then old(items)[key := text] else old(items)
    {
      var next := items[key := text];
      if !host.fits(next) {
        return false;
      }
      items := next;
      return true;
    }

    /** `isLocalStorageAvailable()`. */
    method IsAvailable() returns (ok: bool)
      modifies this
      ensures ok == Available(host, old(items))
      ensures items == Probed(host, old(items))
    {
      if !host.enabled {
        return false;
      }
      ok := TryWrite(TEST_KEY, TEST_VALUE);
      if ok {
        items := items - {TEST_KEY};
      }
    }

    /** `getItemSafe(key, defaultValue)`. */
    method GetItemSafe(key: string, defaultValue: Value) returns (v: Value)
      modifies this
      ensures (v, items) == GetItem(host, old(items), key, defaultValue)
    {
      var available := IsAvailable();
      if !available {
        return defaultValue;
      }
      if key !in items || items[key] == "" {
        return defaultValue;
      }
      match host.parse(items[key]) {
        case Some(parsed) => v := parsed;
        case None => v := defaultValue;
      }
    }

    /** `setItemSafe(key, value)`. */
    method SetItemSafe(key: string, value: Value) returns (ok: bool)
      modifies this
      ensures (ok, items) == SetItem(host, old(items), key, value)
    {
      var available := IsAvailable();
      if !available {
        return false;
      }
      ghost var probed := items;
      var written;
      if Oversize(host, value) {
        if !value.ArrayValue? {
          return false;
        }
        written := TryWrite(key, host.stringify(ArrayValue(KeepSeventyPercent(value.elements))));
      } else {
        written := TryWrite(key, host.stringify(value));
      }
      if written {
        return true;
      }
      // the write threw QuotaExceededError
      assert items == probed;
      if value.ArrayValue? {
        var retried := TryWrite(key, host.stringify(ArrayValue(KeepHalf(value.elements))));
        if retried {
          return true;
        }
        ClearAppStorage();
      }
      return false;
    }

    /** `removeItem(key)`. */
    method RemoveItem(key: string)
      modifies this
      ensures items == Remove(host, old(items), key)
    {
      var available := IsAvailable();
      if available {
        items := items - {key};
      }
    }

    /** `clearAppStorage()`: one pass over a snapshot of the keys. */
    method ClearAppStorage()
      modifies this
      ensures items == ClearApp(host, old(items))
    {
      var available := IsAvailable();
      if !available {
        return;
      }
      ghost var snapshot := items;
      var keys := items.Keys;
      assert items == map k | k in snapshot && (k in keys || !StartsWith(k, APP_KEY_PREFIX)) :: snapshot[k];
      while keys != {}
        invariant keys <= snapshot.Keys
        invariant items == map k | k in snapshot && (k in keys || !StartsWith(k, APP_KEY_PREFIX)) :: snapshot[k]
        decreases keys
      {
        var key :| key in keys;
        if StartsWith(key, APP_KEY_PREFIX) {
          items := items - {key};
        }
        keys := keys - {key};
      }
      assert items == WithoutAppKeys(snapshot);
    }
  }

  /* ---------------------------------------------------------------------- */
  /* Debounced writes                                                        */
  /* ---------------------------------------------------------------------- */

  /** A write waiting on its timer: the value captured and the delay. */
  datatype PendingWrite = PendingWrite(value: Value, delay: int)

  /** One call `setItemDebounced(key, value, delay)`. */
  datatype DebouncedCall = DebouncedCall(key: string, write: PendingWrite)

  /** The timer table after a sequence of calls, none of whose timers has fired. */
  function AfterCalls(pending: map<string, PendingWrite>, calls: seq<DebouncedCall>): map<string, PendingWrite>
    decreases |calls|
  {
    if calls == [] then pending
    else AfterCalls(pending[calls[0].key := calls[0].write], calls[1..])
  }

  /** The write of the last call for `key`, if any. */
  function LastCallFor(calls: seq<DebouncedCall>, key: string): (r: Option<PendingWrite>)
    ensures r.None? <==> forall i :: 0 <= i < |calls| ==> calls[i].key != key
    ensures r.Some? ==>
      exists i :: 0 <= i < |calls| && calls[i] == DebouncedCall(key, r.value) &&
        forall j :: i < j < |calls| ==> calls[j].key != key
    decreases |calls|
  {
    if calls == [] then None
    else if calls[|calls| - 1].key == key then
      assert calls[|calls| - 1] == DebouncedCall(key, calls[|calls| - 1].write);
      Some(calls[|calls| - 1].write)
    else LastCallFor(calls[..|calls| - 1], key)
  }

  /** Appending one call updates the table at that call's key. */
  lemma {:induction false} AfterCallsSnoc(pending: map<string, PendingWrite>, calls: seq<DebouncedCall>, c: DebouncedCall)
    ensures AfterCalls(pending, calls + [c]) == AfterCalls(pending, calls)[c.key := c.write]
    decreases |calls|
  {
    if calls == [] {
      assert [c][1..] == [];
    } else {
      assert (calls + [c])[1..] == calls[1..] + [c];
      AfterCallsSnoc(pending[calls[0].key := calls[0].write], calls[1..], c);
    }
  }

  /**
   * Last write wins: after a burst of calls the table holds, for each key,
   * the write of the last call for that key, and keys no call named are as
   * they were. A map holds one entry per key, so one timer per key is pending.
   */
  lemma {:induction false} DebounceLastWriteWins(pending: map<string, PendingWrite>, calls: seq<DebouncedCall>, key: string)
    ensures var r := AfterCalls(pending, calls);
      match LastCallFor(calls, key)
      case Some(w) => key in r && r[key] == w
      case None => (key in r <==> key in pending) && (key in pending ==> r[key] == pending[key])
    decreases |calls|
  {
    if calls != [] {
      var init, c := calls[..|calls| - 1], calls[|calls| - 1];
      assert calls == init + [c];
      AfterCallsSnoc(pending, init, c);
      DebounceLastWriteWins(pending, init, key);
    }
  }

  /** The keys with a pending write are those pending before and those named by a call. */
  lemma {:induction false} DebouncePendingKeys(pending: map<string, PendingWrite>, calls: seq<DebouncedCall>)
    ensures AfterCalls(pending, calls).Keys == pending.Keys + set i | 0 <= i < |calls| :: calls[i].key
    decreases |calls|
  {
    if calls != [] {
      DebouncePendingKeys(pending[calls[0].key := calls[0].write], calls[1..]);
      var rest := set i | 0 <= i < |calls| - 1 :: calls[1..][i].key;
      var all := set i | 0 <= i < |calls| :: calls[i].key;
      assert all == {calls[0].key} + rest by {
        forall k | k in all ensures k in {calls[0].key} + rest {
          var i :| 0 <= i < |calls| && calls[i].key == k;
          if i > 0 {
            assert calls[1..][i - 1].key == k;
          }
        }
        forall k | k in rest ensures k in all {
          var i :| 0 <= i < |calls| - 1 && calls[1..][i].key == k;
          assert calls[i + 1].key == k;
        }
      }
    }
  }

  /** The module-level table of debounce timers. */
  class DebounceTimers {
    var pending: map<string, PendingWrite>

    constructor()
      ensures pending == map[]
    {
      pending := map[];
    }

    /** `setItemDebounced(key, value, delay)`: the new timer replaces any pending one. */
    method SetItemDebounced(key: string, value: Value, delay: int)
      modifies this
      ensures pending == old(pending)[key := PendingWrite(value, delay)]
    {
      pending := pending[key := PendingWrite(value, delay)];
    }

    /** The timer for `key` fires: one `setItemSafe` with the captured value, then the timer is dropped. */
    method Fire(key: string, storage: Storage) returns (ok: bool)
      requires key in pending
      modifies this, storage
      ensures (ok, storage.items) == SetItem(storage.host, old(storage.items), key, old(pending)[key].value)
      ensures pending == old(pending) - {key}
    {
      ok := storage.SetItemSafe(key, pending[key].value);
      pending := pending - {key};
    }
  }
}
