/** The renderer's scan-and-clean state (src/composables/useDiskScanner.ts):
    the reactive refs become the fields of one `Scanner` object, and scan,
    clean and cancel are methods that update them in the order the source
    does. What the backend answers is an input: `info` is the reply to
    get-disk-info, `size` the reply to get-dir-size for a path, `del` the
    reply to delete-path for a path. The ghost logs record every value the
    two progress refs take, so that their whole history can be stated. */
module DiskScanner {
  import opened Text
  import opened Seqs
  import Overview
  import opened Language

  const MIB := 1024 * 1024
  const GIB := 1024 * MIB

  /** One entry of the table of cleanable folders. */
  datatype Rule = Rule(id: string, name: string, nameEn: string, path: string,
                       description: string, descriptionEn: string, icon: string, safe: bool)

  /** A folder found worth cleaning, as shown in the list. */
  datatype CleanableItem = CleanableItem(id: string, name: string, path: string, size: int,
                                         description: string, icon: string, safe: bool, selected: bool)

  datatype DiskInfo = DiskInfo(drive: string, total: int, used: int, free: int, cleanable: int)

  /** The get-disk-info reply. */
  datatype DiskReply = DiskReply(total: int, free: int)

  datatype CleaningProgress = CleaningProgress(current: nat, total: nat, currentItem: string, freedSpace: int)

  datatype CleanupResult = CleanupResult(freedSpace: int, itemCount: nat)

  /** The delete-path reply; a missing reply is DeleteResult(false, 0), a
      missing or zero freedSpace is 0. */
  datatype DeleteResult = DeleteResult(success: bool, freedSpace: nat)

  const CLEANABLE_RULES: seq<Rule> := [
    Rule("temp", "用户临时文件", "User Temp Files", "%TEMP%", "应用程序临时文件", "Application temp files", "🗂️", true),
    Rule("win_temp", "系统临时文件", "System Temp Files", "C:\\Windows\\Temp", "Windows系统临时文件", "Windows system temp", "📄", true),
    Rule("windows_update", "Windows 更新缓存", "Windows Update Cache", "C:\\Windows\\SoftwareDistribution\\Download", "已安装的更新包", "Installed update packages", "🔄", true),
    Rule("prefetch", "预读取文件", "Prefetch Files", "C:\\Windows\\Prefetch", "程序启动缓存", "Program launch cache", "⚡", true),
    Rule("cbs_logs", "CBS 日志", "CBS Logs", "C:\\Windows\\Logs\\CBS", "Windows组件日志", "Windows component logs", "📋", true),
    Rule("panther", "Windows 安装日志", "Windows Install Logs", "C:\\Windows\\Panther", "安装/升级日志", "Install/upgrade logs", "📝", true),
    Rule("memory_dumps", "内存转储", "Memory Dumps", "C:\\Windows\\Minidump", "蓝屏转储文件", "BSOD dump files", "💥", true),
    Rule("windows_old", "Windows.old", "Windows.old", "C:\\Windows.old", "旧系统备份", "Old system backup", "🗃️", true),
    Rule("thumbnail", "缩略图缓存", "Thumbnail Cache", "%LOCALAPPDATA%\\Microsoft\\Windows\\Explorer", "文件预览缩略图", "File preview thumbnails", "🖼️", true),
    Rule("crash_dumps", "程序崩溃报告", "Crash Reports", "%LOCALAPPDATA%\\CrashDumps", "崩溃转储文件", "Crash dump files", "💔", true),
    Rule("wer", "Windows 错误报告", "Windows Error Reports", "%LOCALAPPDATA%\\Microsoft\\Windows\\WER", "错误报告缓存", "Error report cache", "⚠️", true),
    Rule("temp_internet", "Internet 临时文件", "Internet Temp Files", "%LOCALAPPDATA%\\Microsoft\\Windows\\INetCache", "IE/Edge缓存", "IE/Edge cache", "🌐", true),
    Rule("recent", "最近文档记录", "Recent Documents", "%APPDATA%\\Microsoft\\Windows\\Recent", "最近打开的文件", "Recently opened files", "📁", true),
    Rule("chrome_cache", "Chrome 缓存", "Chrome Cache", "%LOCALAPPDATA%\\Google\\Chrome\\User Data\\Default\\Cache", "Chrome浏览器缓存", "Chrome browser cache", "🔴", true),
    Rule("chrome_code", "Chrome 代码缓存", "Chrome Code Cache", "%LOCALAPPDATA%\\Google\\Chrome\\User Data\\Default\\Code Cache", "Chrome JS缓存", "Chrome JS cache", "🔴", true),
    Rule("edge_cache", "Edge 缓存", "Edge Cache", "%LOCALAPPDATA%\\Microsoft\\Edge\\User Data\\Default\\Cache", "Edge浏览器缓存", "Edge browser cache", "🔵", true),
    Rule("edge_code", "Edge 代码缓存", "Edge Code Cache", "%LOCALAPPDATA%\\Microsoft\\Edge\\User Data\\Default\\Code Cache", "Edge JS缓存", "Edge JS cache", "🔵", true),
    Rule("firefox", "Firefox 缓存", "Firefox Cache", "%LOCALAPPDATA%\\Mozilla\\Firefox\\Profiles", "Firefox缓存", "Firefox cache", "🦊", true),
    Rule("npm", "NPM 缓存", "NPM Cache", "%APPDATA%\\npm-cache", "Node.js包缓存", "Node.js package cache", "📦", true),
    Rule("yarn", "Yarn 缓存", "Yarn Cache", "%LOCALAPPDATA%\\Yarn\\Cache", "Yarn包缓存", "Yarn package cache", "🧶", true),
    Rule("pip", "Pip 缓存", "Pip Cache", "%LOCALAPPDATA%\\pip\\cache", "Python包缓存", "Python package cache", "🐍", true),
    Rule("nuget", "NuGet 缓存", "NuGet Cache", "%LOCALAPPDATA%\\NuGet\\Cache", ".NET包缓存", ".NET package cache", "📚", true),
    Rule("gradle", "Gradle 缓存", "Gradle Cache", "%USERPROFILE%\\.gradle\\caches", "Java构建缓存", "Java build cache", "🐘", true),
    Rule("maven", "Maven 缓存", "Maven Cache", "%USERPROFILE%\\.m2\\repository", "Maven缓存", "Maven cache", "☕", true),
    Rule("vscode_cache", "VSCode 缓存", "VSCode Cache", "%APPDATA%\\Code\\Cache", "VS Code缓存", "VS Code cache", "💙", true),
    Rule("vscode_data", "VSCode 缓存数据", "VSCode Cached Data", "%APPDATA%\\Code\\CachedData", "VS Code编译缓存", "VS Code compiled cache", "💙", true),
    Rule("teams", "Teams 缓存", "Teams Cache", "%APPDATA%\\Microsoft\\Teams\\Cache", "Teams缓存", "Teams cache", "👥", true),
    Rule("discord", "Discord 缓存", "Discord Cache", "%APPDATA%\\discord\\Cache", "Discord缓存", "Discord cache", "💬", true),
    Rule("spotify", "Spotify 缓存", "Spotify Cache", "%LOCALAPPDATA%\\Spotify\\Data", "音乐缓存", "Music cache", "🎵", true),
    Rule("wechat", "微信文件缓存", "WeChat Files", "%USERPROFILE%\\Documents\\WeChat Files", "微信接收的文件", "WeChat received files", "💚", false),
    Rule("downloads", "下载文件夹", "Downloads Folder", "%USERPROFILE%\\Downloads", "下载的文件", "Downloaded files", "📥", false),
    Rule("installer", "安装包缓存", "Installer Cache", "C:\\Windows\\Installer\\$PatchCache$", "安装程序补丁", "Installer patches", "📀", true)
  ]

  // ---------------------------------------------------------------- getDiskInfo

  /** getDiskInfo: a reply with a non-zero total gives used = total - free;
      anything else gives the fixed placeholder of 200 GiB. */
  function GetDiskInfo(info: Option<DiskReply>): DiskInfo
  {
    if info.Some? && info.value.total != 0 then
      DiskInfo("C:", info.value.total, info.value.total - info.value.free, info.value.free, 0)
    else
      DiskInfo("C:", 200 * GIB, 110 * GIB, 90 * GIB, 0)
  }

  // ---------------------------------------------------------------- scanCleanableItems

  function SizeKey(it: CleanableItem): int { it.size }

  /** The item a rule yields once its folder measured `size`. */
  function ItemFor(rule: Rule, size: int, lang: Lang): CleanableItem
  {
    CleanableItem(rule.id, if lang == Zh then rule.name else rule.nameEn, rule.path, size,
                  if lang == Zh then rule.description else rule.descriptionEn, rule.icon, rule.safe, false)
  }

  /** The items pushed while walking `rules` in order: one for each rule
      whose folder measures more than 1 MiB. */
  function Found(rules: seq<Rule>, size: string -> nat, lang: Lang): seq<CleanableItem>
  {
    if rules == [] then []
    else
      var r := rules[|rules| - 1];
      Found(rules[..|rules| - 1], size, lang) + (if size(r.path) > MIB then [ItemFor(r, size(r.path), lang)] else [])
  }

  /** Measuring one more rule adds its item when its folder is over 1 MiB. */
  lemma FoundStep(rules: seq<Rule>, j: nat, size: string -> nat, lang: Lang)
    requires j < |rules|
    ensures Found(rules[..j + 1], size, lang) == Found(rules[..j], size, lang) +
      (if size(rules[j].path) > MIB then [ItemFor(rules[j], size(rules[j].path), lang)] else [])
  {
    assert rules[..j + 1][..j] == rules[..j];
  }

  /** What scanCleanableItems returns: the found items, largest first. */
  function ScannedItems(rules: seq<Rule>, size: string -> nat, lang: Lang): seq<CleanableItem>
  {
    SortDesc(Found(rules, size, lang), SizeKey)
  }

  /** The progress values scanCleanableItems sets, one per batch of five
      starting at rule `i` of `n`. */
  function BatchProgress(i: nat, n: nat): seq<int>
    decreases n - i
  {
    if i >= n then [] else [BatchValue(i, n)] + BatchProgress(i + 5, n)
  }

  /** The progress set after the batch starting at rule `i` of `n`:
      70 + floor(i / n * 25). */
  function BatchValue(i: nat, n: nat): int
    requires n > 0
  {
    70 + (i * 25) / n
  }

  /** One batch's value followed by the rest of the batches. */
  lemma BatchLogStep(log: seq<int>, i: nat, n: nat)
    requires i < n
    ensures log + BatchProgress(i, n) == (log + [BatchValue(i, n)]) + BatchProgress(i + 5, n)
  {
  }

  /** Every progress value a scan over `n` rules sets, in order. */
  function ScanProgressTrace(n: nat): seq<int>
  {
    [0, 10, 30, 40, 60, 70] + BatchProgress(0, n) + [100]
  }

  lemma ScanLogParts(log: seq<int>, n: nat)
    ensures log + [0, 10, 30, 40, 60, 70] + BatchProgress(0, n) + [100] == log + ScanProgressTrace(n)
  {
  }

  ghost predicate NonDecreasing(s: seq<int>)
  {
    forall i, j :: 0 <= i < j < |s| ==> s[i] <= s[j]
  }

  // ---------------------------------------------------------------- clean

  function IdIn(ids: seq<string>): CleanableItem -> bool
  {
    (it: CleanableItem) => it.id in ids
  }

  function IdNotIn(ids: seq<string>): CleanableItem -> bool
  {
    (it: CleanableItem) => it.id !in ids
  }

  function Succeeds(del: string -> DeleteResult): CleanableItem -> bool
  {
    (it: CleanableItem) => del(it.path).success
  }

  /** The items clean is asked to work on, in list order. */
  function Selected(items: seq<CleanableItem>, ids: seq<string>): seq<CleanableItem>
  {
    Filter(items, IdIn(ids))
  }

  /** What a successful delete adds to the freed total: the backend's
      figure, or the item's own size when the backend says 0. */
  function Credit(it: CleanableItem, r: DeleteResult): int
  {
    if r.freedSpace != 0 then r.freedSpace else it.size
  }

  /** The ids of the items whose delete succeeded, in order. */
  function CleanedIds(xs: seq<CleanableItem>, del: string -> DeleteResult): seq<string>
  {
    if xs == [] then []
    else
      var x := xs[|xs| - 1];
      CleanedIds(xs[..|xs| - 1], del) + (if del(x.path).success then [x.id] else [])
  }

  /** The freed total over the items whose delete succeeded. */
  function Freed(xs: seq<CleanableItem>, del: string -> DeleteResult): int
  {
    if xs == [] then 0
    else
      var x := xs[|xs| - 1];
      Freed(xs[..|xs| - 1], del) + (if del(x.path).success then Credit(x, del(x.path)) else 0)
  }

  /** The progress values set while cleaning `xs` out of `n` items. */
  function CleanTrace(xs: seq<CleanableItem>, del: string -> DeleteResult, n: nat): seq<CleaningProgress>
  {
    if xs == [] then []
    else
      var init := xs[..|xs| - 1];
      CleanTrace(init, del, n) + [CleaningProgress(|xs|, n, xs[|xs| - 1].name, Freed(init, del))]
  }

  /** Ids are distinct: the item of a rule is the only one with its id. */
  ghost predicate UniqueIds(items: seq<CleanableItem>)
  {
    forall i, j :: 0 <= i < j < |items| ==> items[i].id != items[j].id
  }

  ghost predicate UniqueRuleIds(rules: seq<Rule>)
  {
    forall i, j :: 0 <= i < j < |rules| ==> rules[i].id != rules[j].id
  }

  /** The items clean removes: those selected whose delete succeeded. */
  function CleanedAway(ids: seq<string>, del: string -> DeleteResult): CleanableItem -> bool
  {
    (it: CleanableItem) => it.id in ids && del(it.path).success
  }

  function NotCleanedAway(ids: seq<string>, del: string -> DeleteResult): CleanableItem -> bool
  {
    (it: CleanableItem) => !(it.id in ids && del(it.path).success)
  }

  // ---------------------------------------------------------------- lemmas

  /** The figures of drive C: always balance, used + free == total, for a
      real reply (whose total and free are kept) as for the placeholder;
      nothing is cleanable until the scan has totalled its items. */
  lemma DiskInfoBalanced(info: Option<DiskReply>)
    ensures var d := GetDiskInfo(info);
      d.drive == "C:" && d.used + d.free == d.total && d.cleanable == 0
    ensures info.Some? && info.value.total != 0 ==>
      GetDiskInfo(info).total == info.value.total && GetDiskInfo(info).free == info.value.free
  {
  }

  /** At most one item per rule, in rule order: every found item is the
      item of a rule whose folder measured over 1 MiB, with the rule's id,
      path and safety, in the current language and not selected; and every
      such rule has its item. */
  lemma {:induction false} FoundFromRules(rules: seq<Rule>, size: string -> nat, lang: Lang)
    ensures |Found(rules, size, lang)| <= |rules|
    ensures forall it :: it in Found(rules, size, lang) ==>
      exists k :: 0 <= k < |rules| && size(rules[k].path) > MIB && it == ItemFor(rules[k], size(rules[k].path), lang)
    ensures forall k :: 0 <= k < |rules| && size(rules[k].path) > MIB ==>
      ItemFor(rules[k], size(rules[k].path), lang) in Found(rules, size, lang)
  {
    if rules != [] {
      var init := rules[..|rules| - 1];
      FoundFromRules(init, size, lang);
      forall it | it in Found(rules, size, lang)
        ensures exists k :: 0 <= k < |rules| && size(rules[k].path) > MIB && it == ItemFor(rules[k], size(rules[k].path), lang)
      {
        if it in Found(init, size, lang) {
          var k :| 0 <= k < |init| && size(init[k].path) > MIB && it == ItemFor(init[k], size(init[k].path), lang);
          assert rules[k] == init[k];
        } else {
          assert rules[|rules| - 1] == rules[|rules| - 1];
        }
      }
      forall k | 0 <= k < |rules| && size(rules[k].path) > MIB
        ensures ItemFor(rules[k], size(rules[k].path), lang) in Found(rules, size, lang)
      {
        if k < |init| {
          assert init[k] == rules[k];
        }
      }
    }
  }

  /** Rules with distinct ids give items with distinct ids. */
  lemma {:induction false} FoundUniqueIds(rules: seq<Rule>, size: string -> nat, lang: Lang)
    requires UniqueRuleIds(rules)
    ensures UniqueIds(Found(rules, size, lang))
  {
    if rules != [] {
      var init := rules[..|rules| - 1];
      var r := rules[|rules| - 1];
      assert UniqueRuleIds(init) by {
        forall i, j | 0 <= i < j < |init| ensures init[i].id != init[j].id {
          assert init[i] == rules[i] && init[j] == rules[j];
        }
      }
      FoundUniqueIds(init, size, lang);
      FoundFromRules(init, size, lang);
      var f := Found(init, size, lang);
      if size(r.path) > MIB {
        var u := f + [ItemFor(r, size(r.path), lang)];
        forall i, j | 0 <= i < j < |u| ensures u[i].id != u[j].id {
          if j == |f| {
            assert u[i] in f;
            var k :| 0 <= k < |init| && size(init[k].path) > MIB && u[i] == ItemFor(init[k], size(init[k].path), lang);
            assert init[k] == rules[k];
          } else {
            assert u[i] == f[i] && u[j] == f[j];
          }
        }
      }
    }
  }

  lemma {:induction false} InsertDescUnique(x: CleanableItem, s: seq<CleanableItem>)
    requires UniqueIds(s) && forall i :: 0 <= i < |s| ==> s[i].id != x.id
    ensures UniqueIds(InsertDesc(x, s, SizeKey))
  {
    if s != [] && SizeKey(s[0]) >= SizeKey(x) {
      var t := s[1..];
      assert UniqueIds(t) by {
        forall i, j | 0 <= i < j < |t| ensures t[i].id != t[j].id {
          assert t[i] == s[i + 1] && t[j] == s[j + 1];
        }
      }
      InsertDescUnique(x, t);
      InsertDescMultiset(x, t, SizeKey);
      var r := InsertDesc(x, t, SizeKey);
      var u := [s[0]] + r;
      forall i, j | 0 <= i < j < |u| ensures u[i].id != u[j].id {
        assert u[j] == r[j - 1];
        if i > 0 {
          assert u[i] == r[i - 1];
        } else {
          assert r[j - 1] in multiset(r);
          assert r[j - 1] == x || r[j - 1] in t;
          if r[j - 1] != x {
            var k :| 0 <= k < |t| && t[k] == r[j - 1];
            assert t[k] == s[k + 1];
          }
        }
      }
    } else if s != [] {
      var u := [x] + s;
      forall i, j | 0 <= i < j < |u| ensures u[i].id != u[j].id {
        assert u[j] == s[j - 1];
        if i > 0 {
          assert u[i] == s[i - 1];
        }
      }
    }
  }

  /** Sorting keeps ids distinct. */
  lemma {:induction false} SortDescUnique(s: seq<CleanableItem>)
    requires UniqueIds(s)
    ensures UniqueIds(SortDesc(s, SizeKey))
  {
    if s != [] {
      var init := s[..|s| - 1];
      var x := s[|s| - 1];
      assert UniqueIds(init) by {
        forall i, j | 0 <= i < j < |init| ensures init[i].id != init[j].id {
          assert init[i] == s[i] && init[j] == s[j];
        }
      }
      SortDescUnique(init);
      SortDescProps(init, SizeKey);
      var t := SortDesc(init, SizeKey);
      forall i | 0 <= i < |t| ensures t[i].id != x.id {
        assert t[i] in multiset(init);
        var k :| 0 <= k < |init| && init[k] == t[i];
        assert init[k] == s[k];
      }
      InsertDescUnique(x, t);
    }
  }

  /** What scanCleanableItems returns is sorted by size, largest first, and
      is a permutation of what it found; with distinct rule ids its ids are
      distinct; and it totals what was found. */
  lemma ScannedItemsProps(rules: seq<Rule>, size: string -> nat, lang: Lang)
    ensures SortedDesc(ScannedItems(rules, size, lang), SizeKey)
    ensures multiset(ScannedItems(rules, size, lang)) == multiset(Found(rules, size, lang))
    ensures Sum(ScannedItems(rules, size, lang), SizeKey) == Sum(Found(rules, size, lang), SizeKey)
    ensures UniqueRuleIds(rules) ==> UniqueIds(ScannedItems(rules, size, lang))
  {
    SortDescProps(Found(rules, size, lang), SizeKey);
    SumPermutation(ScannedItems(rules, size, lang), Found(rules, size, lang), SizeKey);
    if UniqueRuleIds(rules) {
      FoundUniqueIds(rules, size, lang);
      SortDescUnique(Found(rules, size, lang));
    }
  }

  /** Every item scanCleanableItems returns copies a rule whose folder
      measured over 1 MiB, and every such rule is listed. */
  lemma ScannedItemsFromRules(rules: seq<Rule>, size: string -> nat, lang: Lang)
    ensures forall it :: it in ScannedItems(rules, size, lang) ==>
      exists k :: 0 <= k < |rules| && size(rules[k].path) > MIB && it == ItemFor(rules[k], size(rules[k].path), lang)
    ensures forall k :: 0 <= k < |rules| && size(rules[k].path) > MIB ==>
      ItemFor(rules[k], size(rules[k].path), lang) in ScannedItems(rules, size, lang)
  {
    FoundFromRules(rules, size, lang);
    SortDescProps(Found(rules, size, lang), SizeKey);
    forall it | it in ScannedItems(rules, size, lang)
      ensures it in Found(rules, size, lang)
    {
      assert it in multiset(ScannedItems(rules, size, lang));
    }
    forall it | it in Found(rules, size, lang)
      ensures it in ScannedItems(rules, size, lang)
    {
      assert it in multiset(Found(rules, size, lang));
    }
  }

  lemma MulMonotone(n: int, x: int, y: int)
    requires 0 < n && x <= y
    ensures n * x <= n * y
  {
  }

  lemma DivMonotone(a: int, b: int, n: int)
    requires 0 <= a <= b && 0 < n
    ensures a / n <= b / n
  {
    var qa, qb := a / n, b / n;
    assert n * qb + b % n == b;
    assert n * qa + a % n == a;
    if qa > qb {
      MulMonotone(n, qb + 1, qa);
    }
  }

  lemma QuarterBelow(i: int, n: int)
    requires 0 <= i < n
    ensures (i * 25) / n <= 24
  {
  }

  /** A batch value lies between 70 and 94 and does not go down from one
      batch to the next. */
  lemma BatchValueBounds(i: nat, n: nat)
    requires i < n
    ensures 70 <= BatchValue(i, n) <= 94
    ensures i + 5 < n ==> BatchValue(i, n) <= BatchValue(i + 5, n)
  {
    QuarterBelow(i, n);
    assert 0 <= (i * 25) / n by {
      assert i * 25 >= 0;
    }
    DivMonotone(i * 25, (i + 5) * 25, n);
  }

  /** The batch progress values lie between 70 and 94 and never go down. */
  lemma {:induction false} BatchProgressBounds(i: nat, n: nat)
    ensures forall k :: 0 <= k < |BatchProgress(i, n)| ==> 70 <= BatchProgress(i, n)[k] <= 94
    ensures NonDecreasing(BatchProgress(i, n))
    ensures BatchProgress(i, n) != [] ==> i < n && BatchProgress(i, n)[0] == BatchValue(i, n)
    decreases n - i
  {
    if i < n {
      var b := BatchProgress(i, n);
      var rest := BatchProgress(i + 5, n);
      assert b == [BatchValue(i, n)] + rest;
      BatchProgressBounds(i + 5, n);
      BatchValueBounds(i, n);
      BatchTail(b, rest);
    }
  }

  /** A head no larger than the first of a nondecreasing tail within 70..94
      keeps the whole nondecreasing and within 70..94. */
  lemma BatchTail(b: seq<int>, rest: seq<int>)
    requires |b| > 0 && b[1..] == rest && 70 <= b[0] <= 94
    requires rest != [] ==> b[0] <= rest[0]
    requires forall k :: 0 <= k < |rest| ==> 70 <= rest[k] <= 94
    requires NonDecreasing(rest)
    ensures forall k :: 0 <= k < |b| ==> 70 <= b[k] <= 94
    ensures NonDecreasing(b)
  {
    forall k, l | 0 <= k < l < |b| ensures b[k] <= b[l] {
      assert b[l] == rest[l - 1];
      if k > 0 {
        assert b[k] == rest[k - 1];
      } else {
        assert rest[0] <= rest[l - 1];
      }
    }
    forall k | 0 <= k < |b| ensures 70 <= b[k] <= 94 {
      if k > 0 {
        assert b[k] == rest[k - 1];
      }
    }
  }

  /** The scan progress starts at 0, never goes down, stays at or below 95
      until the final 100. */
  lemma ScanProgressShape(n: nat)
    ensures var t := ScanProgressTrace(n);
      t[0] == 0 && t[|t| - 1] == 100 && NonDecreasing(t) &&
      forall k :: 0 <= k < |t| - 1 ==> t[k] <= 95
  {
    var b := BatchProgress(0, n);
    BatchProgressBounds(0, n);
    var p := [0, 10, 30, 40, 60, 70];
    var t := ScanProgressTrace(n);
    assert t == p + b + [100];
    forall k | 0 <= k < |t| ensures (k < 6 ==> t[k] == p[k]) && (6 <= k < |t| - 1 ==> t[k] == b[k - 6]) {
    }
    forall k, l | 0 <= k < l < |t| ensures t[k] <= t[l] {
      if 6 <= k && l < |t| - 1 {
        assert b[k - 6] <= b[l - 6];
      }
    }
  }

  /** The rule table has 32 rules. */
  lemma TableSize()
    ensures |CLEANABLE_RULES| == 32
  {
  }

  /** Over 32 rules a scan reports these batch values. */
  lemma TableBatches()
    ensures BatchProgress(0, 32) == [70, 73, 77, 81, 85, 89, 93]
  {
    TableBatchesTail();
    assert BatchValue(15, 32) == 81 && BatchValue(10, 32) == 77 && BatchValue(5, 32) == 73;
    assert BatchValue(0, 32) == 70;
    assert BatchProgress(10, 32) == [77, 81, 85, 89, 93];
    assert BatchProgress(5, 32) == [73, 77, 81, 85, 89, 93];
  }

  /** The last four batch values over 32 rules. */
  lemma TableBatchesTail()
    ensures BatchProgress(15, 32) == [81, 85, 89, 93]
  {
    assert BatchProgress(35, 32) == [];
    assert BatchValue(30, 32) == 93 && BatchValue(25, 32) == 89 && BatchValue(20, 32) == 85;
    assert BatchValue(15, 32) == 81;
    assert BatchProgress(30, 32) == [93];
    assert BatchProgress(25, 32) == [89, 93];
    assert BatchProgress(20, 32) == [85, 89, 93];
  }

  /** The ids clean collects are those of the items whose delete succeeded. */
  lemma {:induction false} CleanedIdsMembers(xs: seq<CleanableItem>, del: string -> DeleteResult, id: string)
    ensures id in CleanedIds(xs, del) <==> exists k :: 0 <= k < |xs| && xs[k].id == id && del(xs[k].path).success
  {
    if xs != [] {
      var init := xs[..|xs| - 1];
      CleanedIdsMembers(init, del, id);
      if id in CleanedIds(init, del) {
        var k :| 0 <= k < |init| && init[k].id == id && del(init[k].path).success;
        assert xs[k] == init[k];
      }
      if exists k :: 0 <= k < |xs| && xs[k].id == id && del(xs[k].path).success {
        var k :| 0 <= k < |xs| && xs[k].id == id && del(xs[k].path).success;
        if k < |init| {
          assert init[k] == xs[k];
        }
      }
    }
  }

  /** lastCleanupResult.itemCount counts the successful deletes. */
  lemma {:induction false} CleanedCount(xs: seq<CleanableItem>, del: string -> DeleteResult)
    ensures |CleanedIds(xs, del)| == |Filter(xs, Succeeds(del))|
  {
    if xs != [] {
      CleanedCount(xs[..|xs| - 1], del);
    }
  }

  /** With distinct ids, clean drops exactly the selected items whose
      delete succeeded and keeps every other item in its order. */
  lemma CleanRemovesExactly(items: seq<CleanableItem>, ids: seq<string>, del: string -> DeleteResult)
    requires UniqueIds(items)
    ensures Filter(items, IdNotIn(CleanedIds(Selected(items, ids), del))) == Filter(items, NotCleanedAway(ids, del))
  {
    var sel := Selected(items, ids);
    var c := CleanedIds(sel, del);
    forall i | 0 <= i < |items| ensures IdNotIn(c)(items[i]) == NotCleanedAway(ids, del)(items[i]) {
      var x := items[i];
      CleanedIdsMembers(sel, del, x.id);
      FilterMembers(items, IdIn(ids), x);
      if x.id in c {
        var k :| 0 <= k < |sel| && sel[k].id == x.id && del(sel[k].path).success;
        assert sel[k] in items;
        var j :| 0 <= j < |items| && items[j] == sel[k];
        assert j == i;
      }
    }
    FilterSame(items, IdNotIn(c), NotCleanedAway(ids, del));
  }

  /** The cleanable total drops by exactly the sizes of the items cleaned
      away. */
  lemma CleanableDrops(items: seq<CleanableItem>, ids: seq<string>, del: string -> DeleteResult)
    ensures Sum(items, SizeKey) ==
      Sum(Filter(items, NotCleanedAway(ids, del)), SizeKey) + Sum(Filter(items, CleanedAway(ids, del)), SizeKey)
  {
    SumFilterSplit(items, NotCleanedAway(ids, del), CleanedAway(ids, del), SizeKey);
  }

  /** While cleaning n items the progress reports item k+1 of n, with its
      name and the space freed by the items before it. */
  lemma {:induction false} CleanTraceShape(xs: seq<CleanableItem>, del: string -> DeleteResult, n: nat)
    ensures |CleanTrace(xs, del, n)| == |xs|
    ensures forall k :: 0 <= k < |xs| ==>
      CleanTrace(xs, del, n)[k] == CleaningProgress(k + 1, n, xs[k].name, Freed(xs[..k], del))
  {
    if xs != [] {
      var init := xs[..|xs| - 1];
      CleanTraceShape(init, del, n);
      var t, ti := CleanTrace(xs, del, n), CleanTrace(init, del, n);
      assert t == ti + [CleaningProgress(|xs|, n, xs[|xs| - 1].name, Freed(init, del))];
      forall k | 0 <= k < |xs| ensures t[k] == CleaningProgress(k + 1, n, xs[k].name, Freed(xs[..k], del)) {
        if k < |init| {
          assert t[k] == ti[k] && init[..k] == xs[..k] && init[k] == xs[k];
        } else {
          assert xs[..k] == init;
        }
      }
    }
  }

  /** What an item adds to the freed total when its delete succeeds. */
  function CreditOf(del: string -> DeleteResult): CleanableItem -> int
  {
    (it: CleanableItem) => Credit(it, del(it.path))
  }

  /** The freed total is the sum, over the items whose delete succeeded, of
      the backend's figure, or the item's size when the backend reports 0;
      a failed delete adds nothing. */
  lemma {:induction false} FreedIsSumOfSuccesses(xs: seq<CleanableItem>, del: string -> DeleteResult)
    ensures Freed(xs, del) == Sum(Filter(xs, Succeeds(del)), CreditOf(del))
  {
    if xs != [] {
      var init := xs[..|xs| - 1];
      var x := xs[|xs| - 1];
      FreedIsSumOfSuccesses(init, del);
      SumAppend(Filter(init, Succeeds(del)), if Succeeds(del)(x) then [x] else [], CreditOf(del));
    }
  }

  class Scanner {
    var isScanning: bool
    var isCleaning: bool
    var scanProgress: int
    var cleaningProgress: CleaningProgress
    var lastCleanupResult: Option<CleanupResult>
    var diskInfo: DiskInfo
    var folderData: seq<Overview.TopNode>
    var cleanableItems: seq<CleanableItem>
    ghost var scanLog: seq<int>
    ghost var cleanLog: seq<CleaningProgress>
    /** The table scan measures. */
    const rules: seq<Rule>

    constructor ()
      ensures rules == CLEANABLE_RULES
      ensures !isScanning && !isCleaning && scanProgress == 0
      ensures cleaningProgress == CleaningProgress(0, 0, "", 0) && lastCleanupResult == None
      ensures diskInfo == DiskInfo("C:", 0, 0, 0, 0) && folderData == [] && cleanableItems == []
      ensures scanLog == [] && cleanLog == []
    {
      isScanning := false;
      isCleaning := false;
      scanProgress := 0;
      cleaningProgress := CleaningProgress(0, 0, "", 0);
      lastCleanupResult := None;
      diskInfo := DiskInfo("C:", 0, 0, 0, 0);
      folderData := [];
      cleanableItems := [];
      scanLog := [];
      cleanLog := [];
      rules := CLEANABLE_RULES;
    }

    method SetScanProgress(v: int)
      modifies `scanProgress, `scanLog
      ensures scanProgress == v && scanLog == old(scanLog) + [v]
    {
      scanProgress := v;
      scanLog := scanLog + [v];
    }

    /** scanCleanableItems: measure the rules' folders in batches of five,
        keep those over 1 MiB, report progress after each batch, and sort
        the items by size, largest first. */
    method ScanCleanableItems(rules: seq<Rule>, size: string -> nat, lang: Lang) returns (items: seq<CleanableItem>)
      modifies `scanProgress, `scanLog
      ensures items == ScannedItems(rules, size, lang)
      ensures scanLog == old(scanLog) + BatchProgress(0, |rules|)
      ensures |rules| == 0 ==> scanProgress == old(scanProgress)
    {
      var n := |rules|;
      ghost var log0 := scanLog;
      var found: seq<CleanableItem> := [];
      var i := 0;
      while i < n
        invariant found == Found(rules[..if i <= n then i else n], size, lang)
        invariant log0 + BatchProgress(0, n) == scanLog + BatchProgress(i, n)
        invariant n == 0 ==> scanProgress == old(scanProgress)
      {
        var end := if i + 5 <= n then i + 5 else n;
        found := ScanBatch(rules, i, end, found, size, lang);
        BatchLogStep(scanLog, i, n);
        SetScanProgress(BatchValue(i, n));
        i := i + 5;
      }
      assert rules[..n] == rules;
      items := SortDesc(found, SizeKey);
    }

    /** One batch: the rules i until end, measured and kept in order. */
    static method ScanBatch(rules: seq<Rule>, i: nat, end: nat, found: seq<CleanableItem>, size: string -> nat, lang: Lang)
      returns (r: seq<CleanableItem>)
      requires i <= end <= |rules| && found == Found(rules[..i], size, lang)
      ensures r == Found(rules[..end], size, lang)
    {
      r := found;
      var j := i;
      while j < end
        invariant i <= j <= end
        invariant r == Found(rules[..j], size, lang)
      {
        var rule := rules[j];
        var s := size(rule.path);
        FoundStep(rules, j, size, lang);
        if s > MIB {
          r := r + [ItemFor(rule, s, lang)];
        }
        j := j + 1;
      }
    }

    /** scan: ignored while a scan runs; otherwise it measures the disk,
        stores the overview, finds the cleanable items, and totals them.
        `isScanning` stays set until ScanSettled. */
    method Scan(info: Option<DiskReply>, folders: seq<Overview.TopNode>, size: string -> nat, lang: Lang)
      modifies this
      ensures old(isScanning) ==>
        isScanning && scanProgress == old(scanProgress) && scanLog == old(scanLog) &&
        diskInfo == old(diskInfo) && folderData == old(folderData) && cleanableItems == old(cleanableItems)
      ensures !old(isScanning) ==>
        isScanning && scanProgress == 100 &&
        scanLog == old(scanLog) + ScanProgressTrace(|rules|) &&
        cleanableItems == ScannedItems(rules, size, lang) &&
        diskInfo == GetDiskInfo(info).(cleanable := Sum(cleanableItems, SizeKey)) &&
        diskInfo.used + diskInfo.free == diskInfo.total &&
        folderData == folders
      ensures isCleaning == old(isCleaning) && cleaningProgress == old(cleaningProgress)
      ensures lastCleanupResult == old(lastCleanupResult) && cleanLog == old(cleanLog)
    {
      if !isScanning {
        RunScan(info, folders, size, lang);
      }
    }

    /** The steps of scan before the rules are measured: the disk figures
        and the folder overview, with progress 0 to 70. */
    method ScanStart(info: Option<DiskReply>, folders: seq<Overview.TopNode>)
      modifies `isScanning, `scanProgress, `scanLog, `diskInfo, `folderData
      ensures isScanning && scanProgress == 70 && scanLog == old(scanLog) + [0, 10, 30, 40, 60, 70]
      ensures diskInfo == GetDiskInfo(info) && folderData == folders
    {
      isScanning := true;
      scanProgress := 0;
      scanProgress := 10;
      diskInfo := GetDiskInfo(info);
      scanProgress := 30;
      scanProgress := 40;
      folderData := folders;
      scanProgress := 60;
      scanProgress := 70;
      scanLog := scanLog + [0, 10, 30, 40, 60, 70];
    }

    /** The body of scan once the guard has passed. */
    method RunScan(info: Option<DiskReply>, folders: seq<Overview.TopNode>, size: string -> nat, lang: Lang)
      modifies `isScanning, `scanProgress, `scanLog, `diskInfo, `folderData, `cleanableItems
      ensures isScanning && scanProgress == 100
      ensures scanLog == old(scanLog) + ScanProgressTrace(|rules|)
      ensures cleanableItems == ScannedItems(rules, size, lang)
      ensures diskInfo == GetDiskInfo(info).(cleanable := Sum(cleanableItems, SizeKey))
      ensures diskInfo.used + diskInfo.free == diskInfo.total
      ensures folderData == folders
    {
      ghost var log0 := scanLog;
      ScanStart(info, folders);
      cleanableItems := ScanCleanableItems(rules, size, lang);
      diskInfo := diskInfo.(cleanable := Sum(cleanableItems, SizeKey));
      scanProgress := 100;
      scanLog := scanLog + [100];
      ScanLogParts(log0, |rules|);
    }

    /** The timer that ends a scan. */
    method ScanSettled()
      modifies `isScanning
      ensures !isScanning
    {
      isScanning := false;
    }

    /** cancelScan: while a scan runs, once the backend acknowledges
        (`acknowledged`), the scan flag and the progress are reset. */
    method CancelScan(acknowledged: bool)
      modifies `isScanning, `scanProgress, `scanLog
      ensures old(isScanning) && acknowledged ==> !isScanning && scanProgress == 0 && scanLog == old(scanLog) + [0]
      ensures !(old(isScanning) && acknowledged) ==>
        isScanning == old(isScanning) && scanProgress == old(scanProgress) && scanLog == old(scanLog)
    {
      if isScanning && acknowledged {
        isScanning := false;
        SetScanProgress(0);
      }
    }

    /** clean(ids): ignored while cleaning, for no ids, or when no listed
        item has one of the ids; otherwise every selected item's folder is
        deleted in list order, the successfully cleaned ones leave the list,
        and the totals are updated. `isCleaning` stays set until
        CleanSettled. */
    method Clean(ids: seq<string>, del: string -> DeleteResult, info: Option<DiskReply>)
      modifies this
      ensures var sel := Selected(old(cleanableItems), ids);
        (old(isCleaning) || ids == [] || sel == []) ==>
          isCleaning == old(isCleaning) && cleanableItems == old(cleanableItems) &&
          diskInfo == old(diskInfo) && cleaningProgress == old(cleaningProgress) &&
          lastCleanupResult == old(lastCleanupResult) && cleanLog == old(cleanLog)
      ensures var sel := Selected(old(cleanableItems), ids);
        var n := |sel|;
        !(old(isCleaning) || ids == [] || sel == []) ==>
          isCleaning &&
          cleanableItems == Filter(old(cleanableItems), IdNotIn(CleanedIds(sel, del))) &&
          diskInfo == old(diskInfo).(cleanable := Sum(cleanableItems, SizeKey),
                                    free := GetDiskInfo(info).free, used := GetDiskInfo(info).used) &&
          lastCleanupResult == Some(CleanupResult(Freed(sel, del), |CleanedIds(sel, del)|)) &&
          cleaningProgress == CleaningProgress(n, n, sel[n - 1].name, Freed(sel, del)) &&
          cleanLog == old(cleanLog) + [CleaningProgress(0, n, "", 0)] + CleanTrace(sel, del, n) + [cleaningProgress]
      ensures isScanning == old(isScanning) && scanProgress == old(scanProgress) && scanLog == old(scanLog)
      ensures folderData == old(folderData)
    {
      var sel := Filter(cleanableItems, IdIn(ids));
      if !isCleaning && |ids| != 0 && sel != [] {
        CleanSelected(sel, del, info);
      }
    }

    /** The steps of clean before the first item: the cleaning flag, the
        previous result cleared and progress 0 of n. */
    method CleanStart(n: nat)
      modifies `isCleaning, `lastCleanupResult, `cleaningProgress, `cleanLog
      ensures isCleaning && lastCleanupResult == None
      ensures cleaningProgress == CleaningProgress(0, n, "", 0)
      ensures cleanLog == old(cleanLog) + [cleaningProgress]
    {
      isCleaning := true;
      lastCleanupResult := None;
      cleaningProgress := CleaningProgress(0, n, "", 0);
      cleanLog := cleanLog + [cleaningProgress];
    }

    /** The body of clean once the guards have passed, for the selected
        items `sel`. */
    method CleanSelected(sel: seq<CleanableItem>, del: string -> DeleteResult, info: Option<DiskReply>)
      requires sel != []
      modifies `isCleaning, `lastCleanupResult, `cleaningProgress, `cleanLog, `cleanableItems, `diskInfo
      ensures isCleaning
      ensures cleanableItems == Filter(old(cleanableItems), IdNotIn(CleanedIds(sel, del)))
      ensures diskInfo == old(diskInfo).(cleanable := Sum(cleanableItems, SizeKey),
                                        free := GetDiskInfo(info).free, used := GetDiskInfo(info).used)
      ensures lastCleanupResult == Some(CleanupResult(Freed(sel, del), |CleanedIds(sel, del)|))
      ensures cleaningProgress == CleaningProgress(|sel|, |sel|, sel[|sel| - 1].name, Freed(sel, del))
      ensures cleanLog == old(cleanLog) + [CleaningProgress(0, |sel|, "", 0)] + CleanTrace(sel, del, |sel|) + [cleaningProgress]
    {
      CleanStart(|sel|);
      var cleaned, freed := CleanEach(sel, del);
      CleanFinish(cleaned, freed, info);
    }

    /** The steps of clean after the last item: the cleaned items dropped,
        the final progress and result, and the disk figures read again. */
    method CleanFinish(cleaned: seq<string>, freed: int, info: Option<DiskReply>)
      modifies `lastCleanupResult, `cleaningProgress, `cleanLog, `cleanableItems, `diskInfo
      ensures cleanableItems == Filter(old(cleanableItems), IdNotIn(cleaned))
      ensures diskInfo == old(diskInfo).(cleanable := Sum(cleanableItems, SizeKey),
                                        free := GetDiskInfo(info).free, used := GetDiskInfo(info).used)
      ensures lastCleanupResult == Some(CleanupResult(freed, |cleaned|))
      ensures cleaningProgress == old(cleaningProgress).(freedSpace := freed)
      ensures cleanLog == old(cleanLog) + [cleaningProgress]
    {
      var remaining := Filter(cleanableItems, IdNotIn(cleaned));
      cleanableItems := remaining;
      var counted := diskInfo.(cleanable := Sum(remaining, SizeKey));
      diskInfo := counted;
      var last := cleaningProgress.(freedSpace := freed);
      cleaningProgress := last;
      cleanLog := cleanLog + [last];
      lastCleanupResult := Some(CleanupResult(freed, |cleaned|));
      var newInfo := GetDiskInfo(info);
      diskInfo := counted.(free := newInfo.free, used := newInfo.used);
    }

    /** The loop of clean: each item in turn is reported in the progress
        and deleted; a success adds its id and its credit. */
    method CleanEach(sel: seq<CleanableItem>, del: string -> DeleteResult) returns (cleaned: seq<string>, freed: int)
      requires sel != []
      modifies `cleaningProgress, `cleanLog
      ensures cleaned == CleanedIds(sel, del) && freed == Freed(sel, del)
      ensures cleanLog == old(cleanLog) + CleanTrace(sel, del, |sel|)
      ensures cleaningProgress == CleaningProgress(|sel|, |sel|, sel[|sel| - 1].name, Freed(sel[..|sel| - 1], del))
    {
      var n := |sel|;
      cleaned := [];
      freed := 0;
      var i := 0;
      while i < n
        invariant 0 <= i <= n
        invariant cleaned == CleanedIds(sel[..i], del)
        invariant freed == Freed(sel[..i], del)
        invariant cleanLog == old(cleanLog) + CleanTrace(sel[..i], del, n)
        invariant i > 0 ==> cleaningProgress == CleaningProgress(i, n, sel[i - 1].name, Freed(sel[..i - 1], del))
      {
        var item := sel[i];
        cleaningProgress := CleaningProgress(i + 1, n, item.name, freed);
        cleanLog := cleanLog + [cleaningProgress];
        var result := del(item.path);
        if result.success {
          freed := freed + Credit(item, result);
          cleaned := cleaned + [item.id];
        }
        assert sel[..i + 1][..i] == sel[..i];
        i := i + 1;
      }
      assert sel[..n] == sel;
    }

    /** The timer that ends a clean. */
    method CleanSettled()
      modifies `isCleaning, `cleaningProgress, `cleanLog
      ensures !isCleaning && cleaningProgress == CleaningProgress(0, 0, "", 0)
      ensures cleanLog == old(cleanLog) + [cleaningProgress]
    {
      isCleaning := false;
      cleaningProgress := CleaningProgress(0, 0, "", 0);
      cleanLog := cleanLog + [cleaningProgress];
    }
  }
}
