# VCRTestListener, modelled in Dafny

`VCRTestListener` is a PHPUnit test listener. Around each test it switches on
the PHP-VCR HTTP recorder, with the cassette named by a `@vcr <cassette>` tag
in the test method's doc comment. This project models the listener's decision
logic and proves what it does:

- `parseDocBlock`, the doc-comment parser. It is modelled as a deterministic
  scanner that is equivalent to `preg_match_all('/@vcr (.*)(\r\n|\r|\n)/U')`,
  followed by PHP's `trim()`. The scanner lives in module `DocBlock`.
- `configure`, the option dispatch: five option names, each mapped to exactly
  one setter. Any other name throws a `RuntimeException`. This is `Listener.Dispatch`.
- The `startTest` / `endTest` lifecycle. The PHP-VCR recorder is a `Recorder`
  object (module `Vcr`) that keeps the trace of calls made on it.
  - `Listener.StartTestSpec` gives, as a function of three inputs, the exact
    calls `startTest` makes and what it returns. The inputs are whether the
    test method exists, the doc comment, and the ordered options.
  - Class `Listener.VcrTestListener` holds the options set by the constructor.
    Its methods make the calls one by one. `StartTest` is proved to make
    exactly the calls `StartTestSpec` gives and to return its result.

Modules: `Wrappers` holds `Option` and `Result`. `DocBlock` holds the scanner,
`trim` and `parseDocBlock`. `Vcr` holds the recorder's calls and trace.
`Listener` holds `configure`, `startTest`, `endTest` and their properties.

## Behaviour worth noting

- The JSON check is `substr($cassetteName, '-5') == '.json'`: it compares the
  last five characters. A name such as `"button"` ends in `on` but does not
  switch the storage; `Listener.JsonNameIff` states the check exactly.
- `startTest` returns `true` only when the options were applied and no cassette
  is named. It returns `null` both when the test method does not exist and
  after a cassette has been inserted, so its result does not say whether the
  recorder was switched on.
- A doc comment `"@vcr fixtures/login"` with no line end after the argument
  gives no directive. The pattern needs `\r` or `\n` after the capture, so no
  cassette is inserted (`DocBlock.UnterminatedTag`).

## Model

| member | source | states |
|---|---|---|
| DocBlock.ParseDocBlock | src/VCRTestListener.php:169-193 | A null/false, `""` or `"0"` doc comment gives no directive. Otherwise there is one directive per match of the pattern. Each directive is trimmed at both ends and holds no `\r` or `\n`. |
| DocBlock.ParseDocBlockMatches | src/VCRTestListener.php:177-190 | The k-th directive is the trimmed capture of the k-th match, and that match is a real occurrence of `@vcr `, an argument without line ends, then a line end. |
| DocBlock.ScanSound | src/VCRTestListener.php:177-178 | Every match the search reports is a real match of the pattern: `@vcr `, a lazy capture, then `\r\n`, `\r` or `\n`. Matches come in text order, and each starts after the line end that closes the one before. |
| DocBlock.ScanFrom | src/VCRTestListener.php:177-178 | The search `preg_match_all` runs from a position: a match there if the tag is there and a line end follows, then the search resumes past the consumed line end; otherwise it resumes one character on. `ScanSound` and `ScanFromComplete` say that it reports only real matches, in order, and misses none. |
| DocBlock.Scan | src/VCRTestListener.php:177-178 | The search from the start of the doc comment; its matches are what `ParseDocBlockMatches` and `ParseComplete` relate to the directives. |
| DocBlock.ScanFromComplete | src/VCRTestListener.php:177-178 | No match is missed: wherever the pattern matches at or after the search's position, one of the reported matches starts there or runs over that position with its tag and capture. |
| DocBlock.ParseComplete | src/VCRTestListener.php:173-190 | In a non-empty doc comment, every position where the pattern matches is covered by a directive: the trimmed capture of a reported match that starts there or whose capture holds that position. |
| DocBlock.LastMatchCovers | src/VCRTestListener.php:177-178 | Every position where the pattern matches lies before the line end that closes the last reported match. |
| DocBlock.IsPhpEmpty | src/VCRTestListener.php:173 | PHP's `empty()`, used on the doc comment here and on the cassette name at line 161: it holds for null/false, `""` and `"0"`, and for nothing else. |
| DocBlock.TerminatorLength | src/VCRTestListener.php:177 | The pattern's closing group, which accepts `\r\n`, `\r` or `\n`: at a line end, the match consumes one or two characters and stays inside the text; `ConsumedLineEnd` says it takes `\r\n` whole and a lone `\r` or `\n` alone. |
| DocBlock.ConsumedLineEnd | src/VCRTestListener.php:177 | At a line end written as `\n`, `\r` or `\r\n`, the match consumes that line end, except that a `\r` followed by a `\n` is consumed together with it. |
| DocBlock.ScanEmpty | src/VCRTestListener.php:177-182 | The search finds nothing if and only if the pattern matches at no position of the text. |
| DocBlock.ParseNoDirective | src/VCRTestListener.php:173-182 | The parser returns no directive if and only if the doc comment is PHP-empty or the pattern matches nowhere in it. |
| DocBlock.ParseWithoutTag | src/VCRTestListener.php:177-182 | Text in which `@vcr ` never occurs gives no directive. |
| DocBlock.ParseWithoutLineEnd | src/VCRTestListener.php:177-182 | Text without `\r` or `\n` gives no directive, even if it holds a `@vcr` tag. |
| DocBlock.UnterminatedTag | src/VCRTestListener.php:177-182 | `"@vcr fixtures/login"` without a trailing line end gives no directive. |
| DocBlock.ParseRendered | src/VCRTestListener.php:177-190 | For a doc comment made of tagged lines, the directives are the lines' trimmed arguments, one per line, in line order. Before each tag and after the last line may stand any text in which `@vcr ` does not occur, such as ` * @test` lines; each argument ends at its `\n`, `\r` or `\r\n`. |
| DocBlock.TagAtPrefix | src/VCRTestListener.php:177 | The character-wise tag test holds exactly when the text at that position is `@vcr `. |
| DocBlock.LineEndFrom | src/VCRTestListener.php:177 | The lazy capture ends at the first `\r` or `\n` at or after a position. No line end comes before it, and it is one unless it is the end of the text. |
| DocBlock.TrimStart | src/VCRTestListener.php:189 | The left half of `trim`: the result is a suffix of the input, everything removed is trimmable, and the result does not start with a trimmable character. |
| DocBlock.TrimEnd | src/VCRTestListener.php:189 | The right half of `trim`: the result is a prefix, everything removed is trimmable, and the result does not end with a trimmable character. |
| DocBlock.Trim | src/VCRTestListener.php:188-190 | The result has no space, tab, `\n`, `\r`, NUL or vertical tab at either end. A string already trimmed comes back unchanged. A string without line ends stays without line ends. |
| DocBlock.TrimPadding | src/VCRTestListener.php:188-190 | `trim` removes exactly the padding: for any trimmable characters around a trimmed core, the result is the core. |
| DocBlock.TrimAll | src/VCRTestListener.php:188-190 | Every captured string is trimmed in place: same length, with element k the trim of element k. |
| Vcr.RecorderOn | src/VCRTestListener.php:165-166 | Whether the recorder is on after a trace of calls: the last `turnOn` (line 165) or `turnOff` (line 226) decides, and it is off when there is none. |
| Vcr.RecorderOnUnchanged | src/VCRTestListener.php:157-158 | Calls that neither turn the recorder on nor off, such as setters and the storage switch, leave its on/off state as it was. |
| Vcr.Recorder.SetMode | src/VCRTestListener.php:199 | `setMode` appends its call to the trace and changes nothing else. |
| Vcr.Recorder.SetCassettePath | src/VCRTestListener.php:202 | `setCassettePath` appends its call to the trace. |
| Vcr.Recorder.EnableRequestMatchers | src/VCRTestListener.php:205 | `enableRequestMatchers` appends its call to the trace. |
| Vcr.Recorder.SetWhiteList | src/VCRTestListener.php:208 | `setWhiteList` appends its call to the trace. |
| Vcr.Recorder.SetBlackList | src/VCRTestListener.php:211 | `setBlackList` appends its call to the trace. |
| Vcr.Recorder.SetStorage | src/VCRTestListener.php:158 | `setStorage` appends its call, with the format, to the trace. |
| Vcr.Recorder.TurnOn | src/VCRTestListener.php:165 | `turnOn` appends its call to the trace. |
| Vcr.Recorder.InsertCassette | src/VCRTestListener.php:166 | `insertCassette` appends its call, with the cassette name, to the trace. |
| Vcr.Recorder.TurnOff | src/VCRTestListener.php:226 | `turnOff` appends its call to the trace. |
| Listener.Dispatch | src/VCRTestListener.php:195-216 | An option gives a call if and only if its name is one of `mode`, `cassettePath`, `requestMatchers`, `whiteList`, `blackList`. That call is the setter for that very name with the given value. Any other name gives the exception message `Unknown VCR configuration option "<name>"`. |
| Listener.DispatchSetter | src/VCRTestListener.php:195-216 | Every setter call is what `configure` makes of its own option name and argument, so dispatch is onto the setters and loses nothing. |
| Listener.ApplyAll | src/VCRTestListener.php:152-154 | The `foreach` over the options as a value: the setter calls made and the exception raised, if any; `ApplyAllInOrder` states both. |
| Listener.ApplyAllInOrder | src/VCRTestListener.php:152-154 | The options loop makes one setter call per option, in order, up to the first unknown name. It completes if and only if every option was applied. Otherwise it fails with the exception of the option right after the applied ones. |
| Listener.ApplyAllCompletes | src/VCRTestListener.php:152-154 | The loop completes if and only if every option name is known, and it only ever calls setters. |
| Listener.ApplyAllAppend | src/VCRTestListener.php:152-154 | Running the loop over two runs of options in a row is running it over the first, then over the second only if the first raised nothing. |
| Listener.ApplyStep | src/VCRTestListener.php:152-154 | One more known option extends the loop's calls by exactly its setter call. |
| Listener.ApplyThrowsAt | src/VCRTestListener.php:152-154 | An unknown option after i known ones ends the loop with its exception, after exactly the first i setter calls. |
| Listener.ArrayPop | src/VCRTestListener.php:149 | `array_pop` gives null for no directive, otherwise the last one. |
| Listener.IsJsonName | src/VCRTestListener.php:157 | The condition for `setStorage('json')`; `JsonNameIff` says it holds exactly for names ending in `.json`. |
| Listener.JsonNameIff | src/VCRTestListener.php:157 | The JSON check passes if and only if the cassette name is some text followed by `.json`. |
| Listener.Start | src/VCRTestListener.php:135-167 | What `startTest` does once the cassette name is known: the calls it makes and its result. The `Start...` lemmas below state its cases. |
| Listener.StartTestSpec | src/VCRTestListener.php:135-167 | `startTest` as a function of whether the method exists, its doc comment and the options: `Start` applied to the cassette the doc comment names. |
| Listener.StartUnresolvable | src/VCRTestListener.php:140-142 | When the test method does not exist, `startTest` returns null and makes no call at all. |
| Listener.StartAppliesOptionsFirst | src/VCRTestListener.php:151-159 | When the method exists and all options are known, the first calls are the options' setters, in map order. No later call is a setter, even when no cassette follows. |
| Listener.StartUnknownOption | src/VCRTestListener.php:152-154 | The first unknown option aborts `startTest` with a `RuntimeException` naming it. Only the options before it have been applied, with no storage switch, `turnOn` or `insertCassette`. |
| Listener.ConfigurationCalls | src/VCRTestListener.php:151-159 | The calls made before `turnOn` only configure: they are setters or the storage switch. |
| Listener.StartJsonStorage | src/VCRTestListener.php:156-159 | `setStorage('json')` is issued if and only if the method exists, every option is known and the cassette name's last five characters are `.json`. |
| Listener.StartShape | src/VCRTestListener.php:135-167 | When `startTest` activates the recorder, its calls are the configuring calls, then `turnOn`, then `insertCassette(name)`, and it returns null. In every other case it makes configuring calls only. |
| Listener.StartReturnsTrue | src/VCRTestListener.php:161-163 | `startTest` returns true if and only if the method exists, every option is known and the cassette name is PHP-empty. It then neither turns the recorder on or off nor inserts a cassette. |
| Listener.StartInsertsCassette | src/VCRTestListener.php:165-166 | `turnOn` is called if and only if the method exists, every option is known and the name is not PHP-empty. Then the last two calls are `turnOn` and `insertCassette(name)`, the result is null, and no earlier call turns the recorder on or off or inserts a cassette. |
| Listener.LastDirectiveWins | src/VCRTestListener.php:147-149 | For a doc comment made of several tagged lines, with any text free of `@vcr ` around them, the cassette is the trimmed argument of the last one. |
| Listener.CassetteIsLastMatch | src/VCRTestListener.php:147-149 | For any doc comment that names a cassette, the cassette is the trimmed capture of a real match of the pattern, and the pattern matches nowhere from that match's line end on. |
| Listener.CassetteName | src/VCRTestListener.php:147-149 | `array_pop` of the parsed directives; `CassetteIsLastMatch` and `LastDirectiveWins` say which directive that is. |
| Listener.OnAfterInsert | src/VCRTestListener.php:165-166 | After `turnOn` and then `insertCassette`, the recorder is on. |
| Listener.SessionLifecycle | src/VCRTestListener.php:224-227 | With the recorder off before the test, it is on while the test runs if and only if `startTest` inserted a cassette. After `endTest` it is off, whatever `startTest` did. |
| Listener.VcrTestListener.constructor | src/VCRTestListener.php:55-58 | The listener keeps the options it is given. |
| Listener.VcrTestListener.Configure | src/VCRTestListener.php:195-216 | The method makes exactly the setter call `Dispatch` selects, or makes no call and reports the exception message. |
| Listener.VcrTestListener.ApplyOptions | src/VCRTestListener.php:151-154 | The `foreach` over the options appends exactly the loop's setter calls to the trace. It stops with the exception of the first unknown option. |
| Listener.VcrTestListener.UseCassette | src/VCRTestListener.php:156-166 | After the options, the method appends the storage switch for a `.json` name, then `turnOn` and `insertCassette` unless the name is PHP-empty. It returns true exactly for a PHP-empty name. |
| Listener.VcrTestListener.StartTest | src/VCRTestListener.php:135-167 | The recorder's new trace is the old one followed by exactly the calls of `StartTestSpec`, and the result is that function's result. |
| Listener.VcrTestListener.EndTest | src/VCRTestListener.php:224-227 | `endTest` appends `turnOff` to the trace and nothing else. |

## Left out

- PHPUnit reflection (`get_class`, `getName(false)`, `method_exists`, `ReflectionMethod::getDocComment`) is not modelled. Its results are inputs: a boolean for "the method exists" and an optional doc comment, where `None` stands for `false`.
- `VCR::configure()` is not a trace event. It only fetches the configuration object whose setters are traced.
- What PHP-VCR does with the calls is not modelled: cassette files, request matching, and any exception a setter, `turnOn` or `insertCassette` might throw. The recorder is only its trace of calls.
- The empty listener hooks (`addError`, `addWarning`, `addFailure`, `addIncompleteTest`, `addSkippedTest`, `addRiskyTest`, `startTestSuite`, `endTestSuite`) are not modelled, because they have no logic.
- The unused fields `$runs` and `$suites` are not modelled.
- The `$time` parameter of `endTest` is not modelled.
- Option values have an opaque type parameter. Their types and contents do not affect the listener.
- Option keys are strings compared exactly. PHP integer keys and the loose comparison of `switch` are not modelled.
- `parseDocBlock`'s `$tag` parameter is fixed to `@vcr`, its only argument in the code.
- PCRE runs on bytes; the model scans characters. The pattern's delimiters (`@vcr `, `\r`, `\n`) and the characters `trim` strips are all ASCII.
- PCRE errors, such as the backtracking limit making `preg_match_all` fail, are not modelled.
- `Vcr.Recorder.constructor` has no counterpart in the code, because the recorder there is a global singleton.
