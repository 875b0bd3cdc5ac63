# Shopware plugin for the IDE: method synthesis and plugin generation

This project models two small parts of the Shopware support plugin for a PHP IDE
and proves properties of them in Dafny.

- **The "Create Method" quick fix** (`CreateMethodQuickFix` module). A subscriber
  registration such as `subscribeEvent('Enlight_Controller_Action::dispatch::replace', 'onDispatch')`
  can name a handler method that the class does not declare. The fix then builds
  the PHP source of that method:
  - the `$args` parameter is typed `Enlight_Hook_HookArgs` for a `Class::method::phase`
    hook and `Enlight_Event_EventArgs` otherwise;
  - a `@var`/`$subject` block is emitted when a subject class was found for the hook;
  - inside that block, return-value lines are emitted for hooks.

  The fix then inserts the text after the method holding the registration. The
  subject class comes from two candidate streams: the hook targets first, then the
  events collected project-wide. The model covers:
  - the two-stage lookup, both as a loop (`GetSubjectTargetOnHook`) and as a
    specification function;
  - the text, as the list of appended fragments and as their concatenation;
  - the insertion into the editor's document, as a class with a mutable `text` field.

  The quick fix's name and family name are the constants `Name` ("Create Method") and
  `FamilyName` ("Method").
- **The plugin generator** (`PluginGeneratorUtil` module). It builds the command line
  `interpreter sw-cli-tools.phar plugin:create [--haveX ...] [--legacy --namespace=NS] PluginName`
  from the generator settings. The model covers:
  - `GenerateCommand`, a method appending to a sequence. It is proved equal to the
    specification function `Command`, and the properties are proved about `Command`.
  - The decisions `installPlugin` takes, as a function from the outcomes of its I/O
    steps to the ordered list of effects it performs:
    - executable/argument split;
    - case-insensitive "exception" check on the process output;
    - target directory;
    - what is deleted, created, moved and opened.

`Strings` holds the Java string operations the core uses (`contains`, `StringBuilder`
appends, `toLowerCase`) and the prefix and occurrence predicates the lemmas are stated with. `Wrappers` holds `Option`, which stands for
Java's nullable references.

The return-value lines belong to hooks, yet a `Class::method::phase` hook whose subject
class is not found gets none of them: the hook test sits inside the subject block, so
such a hook gets only the hook signature and the closing brace
(`UnresolvedHookHasNoReturnLines`).

## Model

| member | source | states |
|---|---|---|
| `CreateMethodQuickFix.FirstHookTargetAt` | src/de/espend/idea/shopware/inspection/quickfix/CreateMethodQuickFix.java:126-132 | the first hook target that is a method or a class decides the first stage; the ones before it are skipped |
| `CreateMethodQuickFix.FirstHookTargetNone` | src/de/espend/idea/shopware/inspection/quickfix/CreateMethodQuickFix.java:126-132 | the first stage yields nothing exactly when no hook target is a method or a class |
| `CreateMethodQuickFix.LastEventTargetAt` | src/de/espend/idea/shopware/inspection/quickfix/CreateMethodQuickFix.java:135-149 | after the collector ran, the target cell holds what the last event whose name equals the hook name exactly and whose element is a method or class yields (later matches overwrite earlier ones) |
| `CreateMethodQuickFix.LastEventTargetNone` | src/de/espend/idea/shopware/inspection/quickfix/CreateMethodQuickFix.java:135-149 | with no matching event the target cell stays null |
| `CreateMethodQuickFix.SubjectTargetFirstStage` | src/de/espend/idea/shopware/inspection/quickfix/CreateMethodQuickFix.java:126-132 | a method or class among the hook targets makes the result final, even a method without containing class; the events are then not consulted |
| `CreateMethodQuickFix.SubjectTargetFallback` | src/de/espend/idea/shopware/inspection/quickfix/CreateMethodQuickFix.java:134-149 | without such a hook target the last matching collected event decides |
| `CreateMethodQuickFix.SubjectTargetNothing` | src/de/espend/idea/shopware/inspection/quickfix/CreateMethodQuickFix.java:124-150 | nothing qualifying in either stream gives no subject |
| `CreateMethodQuickFix.GetSubjectTargetOnHook` | src/de/espend/idea/shopware/inspection/quickfix/CreateMethodQuickFix.java:124-150 | the loop with early return, then the overwriting pass over the events, computes the two-stage selection |
| `CreateMethodQuickFix.FixTemplateSignature` | src/de/espend/idea/shopware/inspection/quickfix/CreateMethodQuickFix.java:58-79 | the generated method takes `Enlight_Hook_HookArgs $args` iff the call has more than one argument and the first is a string literal containing `::`; otherwise it takes `Enlight_Event_EventArgs $args` |
| `CreateMethodQuickFix.FixTemplateSubjectLines` | src/de/espend/idea/shopware/inspection/quickfix/CreateMethodQuickFix.java:58-83 | a `/** @var` line follows the header iff a hook name was read and a subject class was found for it by the two-stage lookup; it then documents that class and is followed by the `$subject` line |
| `CreateMethodQuickFix.NoColonNoHook` | src/de/espend/idea/shopware/inspection/quickfix/CreateMethodQuickFix.java:71-76 | a name without a colon, such as a plain event name, gets the event argument type |
| `CreateMethodQuickFix.StartDispatchIsPlainEvent` | src/de/espend/idea/shopware/inspection/quickfix/CreateMethodQuickFix.java:72-76 | the plain event name `Enlight_Controller_Front_StartDispatch` gets `Enlight_Event_EventArgs` |
| `CreateMethodQuickFix.DispatchReplaceIsHook` | src/de/espend/idea/shopware/inspection/quickfix/CreateMethodQuickFix.java:74 | `Enlight_Controller_Action::dispatch::replace` counts as a hook |
| `CreateMethodQuickFix.MethodFragmentsShape` | src/de/espend/idea/shopware/inspection/quickfix/CreateMethodQuickFix.java:78-95 | header first and `}` last; without subject exactly these two; with subject the `@var` line directly followed by the `$subject` line; the return read and write are appended iff there is a subject and a hook, the read before the write |
| `CreateMethodQuickFix.SubjectBlockText` | src/de/espend/idea/shopware/inspection/quickfix/CreateMethodQuickFix.java:80-93 | the subject block's appends add up to the block's text, empty without a subject |
| `CreateMethodQuickFix.MethodTextParts` | src/de/espend/idea/shopware/inspection/quickfix/CreateMethodQuickFix.java:78-95 | the built text is header, subject block and closing brace |
| `CreateMethodQuickFix.MethodTextFrame` | src/de/espend/idea/shopware/inspection/quickfix/CreateMethodQuickFix.java:78-95 | the text starts with `public function <name>(<type hint> $args) {`, ends with `}`, and without subject is exactly the two |
| `CreateMethodQuickFix.SubjectLinesInText` | src/de/espend/idea/shopware/inspection/quickfix/CreateMethodQuickFix.java:80-83 | with a subject, the `@var` line followed by the `$subject` line occurs right after the header's line break and before the closing brace |
| `CreateMethodQuickFix.ReturnLinesInText` | src/de/espend/idea/shopware/inspection/quickfix/CreateMethodQuickFix.java:85-90 | with a subject and a hook, the text reads the return value before it writes it back |
| `CreateMethodQuickFix.UnresolvedHookHasNoReturnLines` | src/de/espend/idea/shopware/inspection/quickfix/CreateMethodQuickFix.java:73-95 | every hook name containing `::` whose subject is not found gets the hook type hint but only header and `}`, with neither return line among the appends |
| `CreateMethodQuickFix.FixTemplateWithoutHookName` | src/de/espend/idea/shopware/inspection/quickfix/CreateMethodQuickFix.java:58-79 | a call not naming its hook in a string literal gets the event signature and an empty body |
| `CreateMethodQuickFix.Document.InsertString` | src/de/espend/idea/shopware/inspection/quickfix/CreateMethodQuickFix.java:111 | inserting puts the string at the offset and keeps the text around it |
| `CreateMethodQuickFix.ApplyFix` | src/de/espend/idea/shopware/inspection/quickfix/CreateMethodQuickFix.java:51-121 | nothing changes and nothing is reformatted without enclosing method, created method or editor, or when the insertion offset lies past the document's end; otherwise a line break and the created method's text are inserted at the enclosing method's end and the reformat range covers exactly the inserted text |
| `PluginGeneratorUtil.AddIf` | src/main/java/de/espend/idea/shopware/action/generator/utils/PluginGeneratorUtil.java:149-151 | a flag is appended iff its setting is on |
| `PluginGeneratorUtil.AddDummyFlags` | src/main/java/de/espend/idea/shopware/action/generator/utils/PluginGeneratorUtil.java:149-175 | the seven conditional appends add the switched-on flags in the fixed order |
| `PluginGeneratorUtil.GenerateCommand` | src/main/java/de/espend/idea/shopware/action/generator/utils/PluginGeneratorUtil.java:142-184 | the appended list is the command line the lemmas below describe |
| `PluginGeneratorUtil.FlagsAfterLength` | src/main/java/de/espend/idea/shopware/action/generator/utils/PluginGeneratorUtil.java:149-175 | each switched-on flag adds exactly one element |
| `PluginGeneratorUtil.FlagsAfterHas` | src/main/java/de/espend/idea/shopware/action/generator/utils/PluginGeneratorUtil.java:149-175 | a flag follows the head iff its setting is on |
| `PluginGeneratorUtil.FlagsAfterAt` | src/main/java/de/espend/idea/shopware/action/generator/utils/PluginGeneratorUtil.java:149-175 | a switched-on flag stands right after the switched-on flags that precede it in the fixed order |
| `PluginGeneratorUtil.CountOnMonotone` | src/main/java/de/espend/idea/shopware/action/generator/utils/PluginGeneratorUtil.java:149-175 | positions of switched-on flags grow with their place in the fixed order |
| `PluginGeneratorUtil.FlagNamesDistinct` | src/main/java/de/espend/idea/shopware/action/generator/utils/PluginGeneratorUtil.java:149-175 | the seven flags are pairwise different |
| `PluginGeneratorUtil.CommandLayout` | src/main/java/de/espend/idea/shopware/action/generator/utils/PluginGeneratorUtil.java:143-183 | the command starts with the interpreter, `sw-cli-tools.phar`, `plugin:create`; ends with the plugin name; has length 4 + number of switched-on flags + 2 if legacy; the legacy arguments sit between the flags and the plugin name |
| `PluginGeneratorUtil.CommandFlagPresent` | src/main/java/de/espend/idea/shopware/action/generator/utils/PluginGeneratorUtil.java:149-175 | each `--have*` flag is among the flag arguments iff its setting is on, and then at its place in the fixed order |
| `PluginGeneratorUtil.CommandFlagOrder` | src/main/java/de/espend/idea/shopware/action/generator/utils/PluginGeneratorUtil.java:149-175 | two switched-on flags appear in the order `--haveFilter`, `--haveFrontend`, `--haveBackend`, `--haveModels`, `--haveCommands`, `--haveWidget`, `--haveApi` |
| `PluginGeneratorUtil.CommandLegacy` | src/main/java/de/espend/idea/shopware/action/generator/utils/PluginGeneratorUtil.java:177-182 | everything before the legacy pair is a `--have*` flag; `--legacy` is present iff the legacy structure is selected and is then directly followed by `--namespace=<namespace>`; otherwise no namespace argument appears |
| `PluginGeneratorUtil.SplitCommand` | src/main/java/de/espend/idea/shopware/action/generator/utils/PluginGeneratorUtil.java:78-82 | executable and arguments put back together give the command, the arguments being all but the first element |
| `PluginGeneratorUtil.CommandSplit` | src/main/java/de/espend/idea/shopware/action/generator/utils/PluginGeneratorUtil.java:76-82 | the generated command runs the interpreter with `sw-cli-tools.phar plugin:create ...` as arguments, the plugin name last |
| `PluginGeneratorUtil.FailureIgnoresCase` | src/main/java/de/espend/idea/shopware/action/generator/utils/PluginGeneratorUtil.java:106 | the output counts as failed iff it contains "exception" in any letter case |
| `PluginGeneratorUtil.FailingChunk` | src/main/java/de/espend/idea/shopware/action/generator/utils/PluginGeneratorUtil.java:84-106 | one printed chunk mentioning an exception makes the collected output a failure |
| `PluginGeneratorUtil.TargetDirectoryInjective` | src/main/java/de/espend/idea/shopware/action/generator/utils/PluginGeneratorUtil.java:121 | the target directory `<base>/engine/Shopware/Plugins/Local/<namespace>/<name>` determines namespace and plugin name when namespaces contain no `/` |
| `PluginGeneratorUtil.InstallPluginErrors` | src/main/java/de/espend/idea/shopware/action/generator/utils/PluginGeneratorUtil.java:67-118 | an error is shown iff the phar is missing, the process cannot run or its output mentions an exception; the error is the last effect and no file is deleted, created or moved |
| `PluginGeneratorUtil.InstallPluginSuccess` | src/main/java/de/espend/idea/shopware/action/generator/utils/PluginGeneratorUtil.java:117-138 | after a clean run the phar is deleted; unless the target is writable, the target directory is created, the plugin moved from the project root into it, and its `Bootstrap.php` opened iff found |
| `PluginGeneratorUtil.InstallPluginRunsCommand` | src/main/java/de/espend/idea/shopware/action/generator/utils/PluginGeneratorUtil.java:70-82 | the process is started iff the phar was found, and it is started with the generated command in the project directory |
| `Strings.ContainsLowerIffIgnoringCase` | src/main/java/de/espend/idea/shopware/action/generator/utils/PluginGeneratorUtil.java:106 | searching the lower-cased text for a lower-case word finds exactly the case-insensitive occurrences |

## Left out

- Downloading or copying the phar (`getCliToolsPharFile`, PluginGeneratorUtil.java:43-65) is file and network I/O; its result is the `cliPhar` parameter of `InstallPlugin`. The local-copy branch returns null even after copying, and an absent `cliPhar` covers that case.
- Running the process, the output listener and the `waitFor` polling loop (PluginGeneratorUtil.java:82-98) are left out. The collected output, or the runner's failure message, is the `outcome` parameter, and `FailingChunk` relates the output to the printed chunks.
- `SymfonyInstallerUtil.formatExceptionMessage` is foreign code and becomes a parameter.
- `FileUtil.canWrite` and the two bootstrap lookups are file-system queries and become the `targetWritable` and `bootstrapFound` parameters.
- Deleting, creating, moving, notifying and navigating are recorded as effects, not performed. The notification's group and title are not modelled.
- `getBasePath()` and `getBaseDir().getPath()` are two separate parameters, because the code reads both.
- Strings.ToLower: lower-cases only ASCII `A`-`Z`, not the full Unicode mapping of `String.toLowerCase`. The word searched for is ASCII, and the other characters `toLowerCase` maps onto ASCII letters (the Kelvin sign to `k`, the dotted capital `İ` to `i` plus a combining dot) can neither create nor break an occurrence of "exception". The model therefore agrees with the code under every default locale except Turkish and Azerbaijani, where `I` becomes a dotless `ı` and "EXCEPTION" would not be found.
- ApplyFix: the code hands the offset to `insertString` unchecked; an offset past the end of the selected editor's document, which the document rejects, is modelled as ending the fix with no change.
- Finding the enclosing method, `createMethodFromTemplate`, the editor lookup, reformatting, committing the document and moving the caret (CreateMethodQuickFix.java:53, 97, 106, 113-119) are IDE calls. The first three are the parameters of `ApplyFix`. The range handed to the reformatter is `ApplyFix`'s result; the reformatting itself, the commit and the caret move are not modelled.
- `LazySubscriberReferenceProvider.getHookTargets` and `EventSubscriberReferenceContributor.collectEvents` are foreign. They become the `hookTargets` function and the `events` sequence, given in the order the collector reports them.
- A PHP class is represented by its presentable fully qualified name, the only property of it the fix uses.
- CreateMethodQuickFix.MethodFragmentsShape: states "the return lines appear iff subject and hook" at the level of the appended fragments. The handler name and the subject's class name are arbitrary strings and could themselves contain those lines, so at the level of the text only their presence and order (`ReturnLinesInText`) and their absence without a subject (`MethodTextFrame`) are stated.
- ShopwareProjectComponent.java (a timer-driven background refresh over foreign indexes) is not part of this model.
- The test classes and the PHP fixture are not part of this model.
