# EspoCRM PHPStan rules, modelled in Dafny

This project models the rules of a PHPStan extension for EspoCRM code. Each
rule looks at one syntax node (a class or a class method) of one file and
returns zero or more error messages. A rule applies only when the file's path
contains its layer directory (`/src/backend/`, `/src/backend/Hooks/`,
`/src/backend/Services/`, `/src/backend/Entities/`), tested as plain
substring containment.

The model has these parts:

- `Ast` holds the part of PHP-Parser's syntax tree the rules read. It also
  holds `NodeFinder::find`/`findFirst`, as a pre-order walk over the
  expressions of a method body.
- `Strings` holds the PHP string functions the rules use; `Wrappers` holds
  `Option` and first/last-hit helpers.
- `Layers` holds the four layer directories.
- There is one module per rule:
  - `SaveRestrictedEntityFields` reports a `saveEntity($e)` call on an
    entity loaded with a restricted `select(...)` when the entity type's
    `afterSave`/`beforeSave` hooks read fields that were not loaded.
  - `NoSameEntitySave` reports a save hook that saves its own entity
    without options that skip hooks.
  - `DependencyVisibilityOrFinal`, `DefineTemplateTypeConstant`,
    `CallParentConstructor`, `NoEntityManagerInEntity`,
    `RequireOrderProperty`, `DefineEntityTypeConstant` and
    `ServiceMustExtendRecord` are the structural rules.
- `IdentifierBuilder` derives each rule's error identifier,
  `espocrm.<domain>.<rule>`, from its class name.

Where the PHP code works step by step, the model is a method with loops: the
assignment, save, hook-file and missing-field loops of
`SaveRestrictedEntityFieldsRule`, the two chain walks, `hasSkipOption`, and
the flag scans. Each such method is proved equal to a specification function,
and the properties are lemmas about that function. The finder predicates,
`isTruthyValue` and the single-pattern rules are functions.

`DefineEntityTypeConstantRule` checks only that a public, `string`-typed
`ENTITY_TYPE` constant is declared; it never compares the value with the class
name. The model does the same, and `ValueIgnored` proves that the value plays
no part.

## Model

| member | source | states |
|---|---|---|
| Strings.IndexOf | PHPStan/Rules/Hooks/SaveRestrictedEntityFieldsRule.php:218 | `strpos`: the result is an occurrence with no earlier one, and it is absent exactly when the needle occurs nowhere |
| Strings.Split | PHPStan/Rules/Core/HasIdentifierBuilder.php:12 | `explode`: at least one piece, no piece holds the separator, and joining the pieces with it gives the input back |
| Strings.SplitJoin | PHPStan/Rules/Core/HasIdentifierBuilder.php:12 | `explode` undoes `implode` for pieces free of the separator |
| Strings.ToLower | PHPStan/Rules/Core/HasIdentifierBuilder.php:17 | `strtolower`: same length, each ASCII capital lowered, nothing else changed, no capital left |
| Strings.LcFirst | PHPStan/Rules/Core/HasIdentifierBuilder.php:19 | `lcfirst`: only the first character is lowered, the rest is kept |
| Ast.ArgValue | PHPStan/Rules/Hooks/SaveRestrictedEntityFieldsRule.php:93 | present exactly when argument i exists and is not a variadic placeholder, and then it is that argument's value |
| Ast.VarNameOf | PHPStan/Rules/Hooks/SaveRestrictedEntityFieldsRule.php:64 | a name is returned exactly for a variable whose name is a string, and it is that name |
| Ast.Find | PHPStan/Rules/Hooks/SaveRestrictedEntityFieldsRule.php:55-57 | `NodeFinder::find` over `BodyNodes` (the pre-order walk of `Nodes`: a node, then its sub-nodes in order) returns exactly the visited nodes that satisfy the predicate, no more of them than were visited |
| Ast.FindAppend | PHPStan/Rules/Hooks/SaveRestrictedEntityFieldsRule.php:82-86 | the search reports matches in visiting order: the matches of two stretches are concatenated |
| Ast.FindFirst | PHPStan/Rules/Services/CallParentConstructorRule.php:49-59 | `NodeFinder::findFirst` finds nothing exactly when no visited node satisfies the predicate, and a found node is visited and satisfies it |
| Ast.SubtreeNodes | PHPStan/Rules/Entities/NoEntityManagerInEntityRule.php:44-53 | the search reaches every depth: every node below a visited node is visited |
| Ast.BodyIncludesStmt | PHPStan/Rules/Entities/NoEntityManagerInEntityRule.php:44 | every node of every expression statement of the body is visited |
| IdentifierBuilder.IndexOfPart | PHPStan/Rules/Core/HasIdentifierBuilder.php:15 | `array_search($x, $parts, true)`: the first index holding `x`, absent exactly when no segment is `x` |
| IdentifierBuilder.LastSegment | PHPStan/Rules/Core/HasIdentifierBuilder.php:12-13 | the last segment of the name never holds a backslash |
| IdentifierBuilder.DomainOf | PHPStan/Rules/Core/HasIdentifierBuilder.php:14-18 | no capital letter; `core` without a `Rules` segment; with the first `Rules` at i, the lowered segment i+1, or `core` when `Rules` is last |
| IdentifierBuilder.BuildIdentifier | PHPStan/Rules/Core/HasIdentifierBuilder.php:19 | the identifier always starts with `espocrm.` |
| IdentifierBuilder.IdentifierOfSegments | PHPStan/Rules/Core/HasIdentifierBuilder.php:11-19 | for a name made of separator-free segments: `espocrm.` + domain + `.` + lcfirst of the last segment, or of the whole name when that segment is falsy |
| IdentifierBuilder.HookRuleIdentifier | PHPStan/Rules/Core/HasIdentifierBuilder.php:11-19 | a rule class under `...\Rules\Hooks\` gets `espocrm.hooks.` + lcfirst of its short name, so the `Rule` suffix is kept |
| IdentifierBuilder.CoreDomainIdentifier | PHPStan/Rules/Core/HasIdentifierBuilder.php:14-19 | a class outside any `Rules` namespace gets `espocrm.core.` + lcfirst of its short name |
| SaveRestrictedEntityFields.Chain | PHPStan/Rules/Hooks/SaveRestrictedEntityFieldsRule.php:147-169 | the calls of a chain start with the outermost call itself; a non-call has none |
| SaveRestrictedEntityFields.ChainLinks | PHPStan/Rules/Hooks/SaveRestrictedEntityFieldsRule.php:147-169 | the chain is the successive `$curr->var` targets: every entry is a call, each entry after the first is the target of the one before, and the last one's target is not a call |
| SaveRestrictedEntityFields.StringItemsMembers | PHPStan/Rules/Hooks/SaveRestrictedEntityFieldsRule.php:152-163 | a name is selected by an array exactly when some item's value is that string literal; keys are ignored |
| SaveRestrictedEntityFields.StringItemsAppend | PHPStan/Rules/Hooks/SaveRestrictedEntityFieldsRule.php:154-162 | selected names keep the order of the items |
| SaveRestrictedEntityFields.SelectOf | PHPStan/Rules/Hooks/SaveRestrictedEntityFieldsRule.php:148-167 | only a `select` call with a first argument selects anything |
| SaveRestrictedEntityFields.SelectOfArgument | PHPStan/Rules/Hooks/SaveRestrictedEntityFieldsRule.php:148-167 | for any `select` call: an array-literal argument gives its string items, a string literal gives itself, any other argument gives nothing |
| SaveRestrictedEntityFields.SelectAlone | PHPStan/Rules/Hooks/SaveRestrictedEntityFieldsRule.php:148-167 | `select([])` is an empty but present selection, `select('f')` selects `f`, `select()` selects nothing |
| SaveRestrictedEntityFields.SelectsNone | PHPStan/Rules/Hooks/SaveRestrictedEntityFieldsRule.php:143-172 | a chain selects nothing exactly when none of its calls is a recognised `select` |
| SaveRestrictedEntityFields.ChainSelectionInnermost | PHPStan/Rules/Hooks/SaveRestrictedEntityFieldsRule.php:143-172 | the selection is that of the innermost recognised `select`; no later call in the walk selects anything |
| SaveRestrictedEntityFields.ArrayFields | PHPStan/Rules/Hooks/SaveRestrictedEntityFieldsRule.php:153-163 | the item loop computes the string-literal values of the items, in order |
| SaveRestrictedEntityFields.CallSelection | PHPStan/Rules/Hooks/SaveRestrictedEntityFieldsRule.php:148-167 | the loop body computes what one call selects |
| SaveRestrictedEntityFields.ExtractSelectedFieldsFromChain | PHPStan/Rules/Hooks/SaveRestrictedEntityFieldsRule.php:143-172 | the while loop returns the chain's selection (innermost `select` wins) |
| SaveRestrictedEntityFields.TrailingWordLength | PHPStan/Rules/Hooks/SaveRestrictedEntityFieldsRule.php:179 | the run of `[A-Za-z0-9_]` characters that ends the name, and it cannot be extended |
| SaveRestrictedEntityFields.EntityTypeOfClass | PHPStan/Rules/Hooks/SaveRestrictedEntityFieldsRule.php:179-181 | a result always matches `\Entities\<word>$` with `<word>` as the captured group |
| SaveRestrictedEntityFields.EntityTypeOfClassComplete | PHPStan/Rules/Hooks/SaveRestrictedEntityFieldsRule.php:179-181 | every match of the pattern is found, with the same captured group: the function is exactly the regular expression |
| SaveRestrictedEntityFields.RepositoryTypeOf | PHPStan/Rules/Hooks/SaveRestrictedEntityFieldsRule.php:190-205 | a type comes only from a `getRDBRepositoryByClass`/`getRepository` call whose first argument is `X::class` with `X` a name, and then it is `X`'s entity type; every such call yields exactly that |
| SaveRestrictedEntityFields.RepositoryTypesNone | PHPStan/Rules/Hooks/SaveRestrictedEntityFieldsRule.php:186-211 | a chain yields no entity type exactly when none of its calls is a repository lookup naming one |
| SaveRestrictedEntityFields.ChainEntityTypeOutermost | PHPStan/Rules/Hooks/SaveRestrictedEntityFieldsRule.php:186-211 | the entity type comes from the outermost repository lookup naming one; no earlier call names one |
| SaveRestrictedEntityFields.ChainEntityTypeStep | PHPStan/Rules/Hooks/SaveRestrictedEntityFieldsRule.php:189-208 | one step of the walk: the outer call's type if it names one, else the rest of the chain's |
| SaveRestrictedEntityFields.InferEntityTypeFromChain | PHPStan/Rules/Hooks/SaveRestrictedEntityFieldsRule.php:186-211 | the while loop with early return computes the chain's entity type |
| SaveRestrictedEntityFields.RepositoryLookupInfers | PHPStan/Rules/Hooks/SaveRestrictedEntityFieldsRule.php:186-211 | `$em->getRepository(Foo\Entities\Bar::class)->where(...)` infers `Bar`: a lookup of a class in an `Entities` namespace gives its short name |
| SaveRestrictedEntityFields.InferEntityTypeFromVarType | PHPStan/Rules/Hooks/SaveRestrictedEntityFieldsRule.php:174-184 | the first class name that matches the pattern decides, and the result is that name's captured group |
| SaveRestrictedEntityFields.ReadNamesMembers | PHPStan/Rules/Hooks/SaveRestrictedEntityFieldsRule.php:293-301 | the names of the reads are exactly their string first arguments |
| SaveRestrictedEntityFields.HookReadsSpec | PHPStan/Rules/Hooks/SaveRestrictedEntityFieldsRule.php:261-292 | a hook reads `f` exactly when it is a save hook with a body and a plain first parameter `$p` and calls `$p->get/getValue/has('f')` at any depth |
| SaveRestrictedEntityFields.MethodsReadsMembers | PHPStan/Rules/Hooks/SaveRestrictedEntityFieldsRule.php:256-302 | a file reads `f` exactly when one of its methods does |
| SaveRestrictedEntityFields.FilesReadsMembers | PHPStan/Rules/Hooks/SaveRestrictedEntityFieldsRule.php:245-303 | a hook directory reads `f` exactly when one of its files does |
| SaveRestrictedEntityFields.Unique | PHPStan/Rules/Hooks/SaveRestrictedEntityFieldsRule.php:305 | `array_values(array_unique(...))` keeps the same members and no duplicates |
| SaveRestrictedEntityFields.UniqueOrder | PHPStan/Rules/Hooks/SaveRestrictedEntityFieldsRule.php:305 | values stay in the order of their first occurrence |
| SaveRestrictedEntityFields.HooksDir | PHPStan/Rules/Hooks/SaveRestrictedEntityFieldsRule.php:218-223 | a directory exists exactly when the path contains `/src/backend/`; it is the path up to the first occurrence, then `/src/backend/Hooks/<EntityType>` |
| SaveRestrictedEntityFields.HookMethodReads | PHPStan/Rules/Hooks/SaveRestrictedEntityFieldsRule.php:257-301 | the per-method step collects that hook's reads in visiting order |
| SaveRestrictedEntityFields.RequiredFieldsSpec | PHPStan/Rules/Hooks/SaveRestrictedEntityFieldsRule.php:216-306 | required fields have no repeats, and `f` is required exactly when the hook directory exists and a hook method in one of its files reads `f` |
| SaveRestrictedEntityFields.CollectHookRequiredFields | PHPStan/Rules/Hooks/SaveRestrictedEntityFieldsRule.php:216-306 | the loops compute the required fields |
| SaveRestrictedEntityFields.FileReads | PHPStan/Rules/Hooks/SaveRestrictedEntityFieldsRule.php:256-302 | the method loop of one file collects its reads |
| SaveRestrictedEntityFields.MissingMembers | PHPStan/Rules/Hooks/SaveRestrictedEntityFieldsRule.php:118-125 | a field is missing exactly when it is required, not selected and not `id` |
| SaveRestrictedEntityFields.MissingAppend | PHPStan/Rules/Hooks/SaveRestrictedEntityFieldsRule.php:121-125 | missing fields keep the required order |
| SaveRestrictedEntityFields.MissingFields | PHPStan/Rules/Hooks/SaveRestrictedEntityFieldsRule.php:118-125 | the loop over `selected ∪ {id}` computes the missing fields |
| SaveRestrictedEntityFields.Listed | PHPStan/Rules/Hooks/SaveRestrictedEntityFieldsRule.php:129 | `array_slice($missing, 0, 5)`: at most five names, a prefix of the list, all of them when there are five or fewer |
| SaveRestrictedEntityFields.SaveMessageNames | PHPStan/Rules/Hooks/SaveRestrictedEntityFieldsRule.php:128-130 | the message names the entity type and each of the first five missing fields |
| SaveRestrictedEntityFields.EllipsisIffTruncated | PHPStan/Rules/Hooks/SaveRestrictedEntityFieldsRule.php:129 | the message holds `…` exactly when more than five fields are missing, given names without `…` |
| SaveRestrictedEntityFields.RecordedHas | PHPStan/Rules/Hooks/SaveRestrictedEntityFieldsRule.php:59-79 | a variable has an entry exactly when some assignment to it has a chain yielding a value |
| SaveRestrictedEntityFields.RecordedLast | PHPStan/Rules/Hooks/SaveRestrictedEntityFieldsRule.php:71-78 | the entry comes from the last such assignment: later ones overwrite, ones yielding nothing leave it alone |
| SaveRestrictedEntityFields.ResolvedEntityType | PHPStan/Rules/Hooks/SaveRestrictedEntityFieldsRule.php:108-111 | the scope type wins when it gives an entity type; otherwise the chain type recorded for the variable is used; none exactly when neither gives one |
| SaveRestrictedEntityFields.SavedVar | PHPStan/Rules/Hooks/SaveRestrictedEntityFieldsRule.php:90-101 | a `saveEntity` call with exactly one argument that is a variable with a string name gives that name; every other call gives none |
| SaveRestrictedEntityFields.CallErrorSpec | PHPStan/Rules/Hooks/SaveRestrictedEntityFieldsRule.php:86-133 | a call errs exactly when it is such a save, the variable has a selection, an entity type is known and a required field is neither selected nor `id` |
| SaveRestrictedEntityFields.CallErrors | PHPStan/Rules/Hooks/SaveRestrictedEntityFieldsRule.php:86-134 | at most one error per visited call |
| SaveRestrictedEntityFields.CallErrorsAppend | PHPStan/Rules/Hooks/SaveRestrictedEntityFieldsRule.php:86-134 | errors come in visiting order |
| SaveRestrictedEntityFields.CallErrorsFrom | PHPStan/Rules/Hooks/SaveRestrictedEntityFieldsRule.php:127-133 | a message is reported exactly when some visited call gives it |
| SaveRestrictedEntityFields.TrackAssignments | PHPStan/Rules/Hooks/SaveRestrictedEntityFieldsRule.php:59-79 | the assignment loop fills both dictionaries as the recorded-entry definition says |
| SaveRestrictedEntityFields.TrackAssignment | PHPStan/Rules/Hooks/SaveRestrictedEntityFieldsRule.php:60-78 | one assignment updates each dictionary by at most its own variable |
| SaveRestrictedEntityFields.ProcessNode | PHPStan/Rules/Hooks/SaveRestrictedEntityFieldsRule.php:39-137 | `processNode` returns `Errors`: the save checks over the method calls of `BodyNodes`, with the dictionaries the assignments fill; none outside `/src/backend/` or without a body |
| SaveRestrictedEntityFields.CheckSaves | PHPStan/Rules/Hooks/SaveRestrictedEntityFieldsRule.php:86-134 | the save loop reports each call's error in visiting order |
| SaveRestrictedEntityFields.CheckSave | PHPStan/Rules/Hooks/SaveRestrictedEntityFieldsRule.php:87-133 | the loop body yields the call's error |
| NoSameEntitySave.IsTruthyValue | PHPStan/Rules/Hooks/NoSameEntitySaveRule.php:148-167 | falsy exactly for the constants `false` and `null` in any letter case |
| NoSameEntitySave.TruthyExamples | PHPStan/Rules/Hooks/NoSameEntitySaveRule.php:148-167 | `FALSE` and `Null` are falsy; `TRUE`, `''`, `'0'` and variables are truthy |
| NoSameEntitySave.OptionKey | PHPStan/Rules/Hooks/NoSameEntitySaveRule.php:104-126 | a string key is taken as written; a class-constant key `C::c` counts exactly when `C` contains `SaveOption` and `c` starts with `SKIP_`, and is then `c`; other keys and unkeyed items never count |
| NoSameEntitySave.HasSkipOption | PHPStan/Rules/Hooks/NoSameEntitySaveRule.php:101-143 | the loop answers whether some keyed item has a `skip…`/`SKIP_…`/`silent`/`SILENT` key and a truthy value |
| NoSameEntitySave.OptionExamples | PHPStan/Rules/Hooks/NoSameEntitySaveRule.php:111-139 | `'skipHooks' => true`, `'silent' => ''` and `SaveOption::SKIP_HOOKS => true` suppress; `SaveOption::SILENT`, a falsy value, `'Silent'` and an unkeyed item do not |
| NoSameEntitySave.OtherClassKeyIgnored | PHPStan/Rules/Hooks/NoSameEntitySaveRule.php:116-126 | a `SKIP_` constant of a class whose name does not contain `SaveOption` is no key and never suppresses |
| NoSameEntitySave.KeylessIgnored | PHPStan/Rules/Hooks/NoSameEntitySaveRule.php:103-106 | items without a key never change the decision |
| NoSameEntitySave.NonArrayOptionsViolate | PHPStan/Rules/Hooks/NoSameEntitySaveRule.php:74-80 | a save of the entity with no second argument, or one that is not an array literal, is a violation |
| NoSameEntitySave.Errors | PHPStan/Rules/Hooks/NoSameEntitySaveRule.php:38-96 | one error exactly when the path is a hook file, the method is a save hook with a plain first parameter and a body, and some node is an `IsViolation` save (`save`/`saveEntity` of that parameter without options that turn hooks off); the message depends on the hook |
| NoSameEntitySave.SkipHooksClears | PHPStan/Rules/Hooks/NoSameEntitySaveRule.php:74-77 | a save passing `['skipHooks' => true]` is not a violation |
| NoEntityManagerInEntity.Errors | PHPStan/Rules/Entities/NoEntityManagerInEntityRule.php:32-64 | one error exactly when the path is an entity file, the method has a body and some node fetches `entityManager` or calls `getEntityManager` |
| NoEntityManagerInEntity.NestedUseReported | PHPStan/Rules/Entities/NoEntityManagerInEntityRule.php:43-53 | a use at any depth inside an expression statement is reported |
| NoEntityManagerInEntity.DirectUsesReported | PHPStan/Rules/Entities/NoEntityManagerInEntityRule.php:44-51 | a property fetch or a method call on any object is reported |
| NoEntityManagerInEntity.DynamicNameNotReported | PHPStan/Rules/Entities/NoEntityManagerInEntityRule.php:46-51 | `$this->$name` is not reported, whatever `$name` holds |
| CallParentConstructor.Errors | PHPStan/Rules/Services/CallParentConstructorRule.php:33-70 | one error exactly for a service `__construct` with a body in which no node is a `parent::__construct` static call |
| CallParentConstructor.NestedCallSatisfies | PHPStan/Rules/Services/CallParentConstructorRule.php:48-63 | a parent-constructor call at any depth satisfies the rule |
| CallParentConstructor.EmptyBody | PHPStan/Rules/Services/CallParentConstructorRule.php:35-46 | an empty service constructor gets the error, other methods never do |
| CallParentConstructor.OtherClassDoesNotSatisfy | PHPStan/Rules/Services/CallParentConstructorRule.php:53-58 | `self::__construct()` or `Base::__construct()` does not satisfy the rule |
| CallParentConstructor.DynamicNameDoesNotSatisfy | PHPStan/Rules/Services/CallParentConstructorRule.php:57 | `parent::$name()` does not satisfy the rule |
| DependencyVisibilityOrFinal.Methods | PHPStan/Rules/Services/DependencyVisibilityOrFinalRule.php:47 | `getMethods()`: exactly the methods declared in the class |
| DependencyVisibilityOrFinal.MethodsAppend | PHPStan/Rules/Services/DependencyVisibilityOrFinalRule.php:47 | declaration order is kept: the methods of two stretches of the class body come one after the other |
| DependencyVisibilityOrFinal.FirstConstructor | PHPStan/Rules/Services/DependencyVisibilityOrFinalRule.php:47-49 | none exactly when no method is `__construct`; otherwise a declared `__construct` |
| DependencyVisibilityOrFinal.FirstConstructorEarliest | PHPStan/Rules/Services/DependencyVisibilityOrFinalRule.php:47-49 | the constructor found is the first declared one |
| DependencyVisibilityOrFinal.FirstConstructorDeclared | PHPStan/Rules/Services/DependencyVisibilityOrFinalRule.php:47-49 | the constructor checked is declared in the class body, and no `__construct` is declared before it |
| DependencyVisibilityOrFinal.HasPrivatePromoted | PHPStan/Rules/Services/DependencyVisibilityOrFinalRule.php:55-65 | the loop answers whether some parameter carries the private flag |
| DependencyVisibilityOrFinal.ProcessNode | PHPStan/Rules/Services/DependencyVisibilityOrFinalRule.php:32-76 | one error exactly for a non-final service class whose first constructor has a private promoted parameter |
| DefineTemplateTypeConstant.ValidityLastLiteral | PHPStan/Rules/Entities/DefineTemplateTypeConstantRule.php:47-56 | valid exactly when some `TEMPLATE_TYPE` with a literal value has a known value and no later one has a literal value |
| DefineTemplateTypeConstant.Outcome | PHPStan/Rules/Entities/DefineTemplateTypeConstantRule.php:59-75 | at most one message: "must define" exactly when not found, "must be" exactly when found but invalid, and none exactly when found and valid |
| DefineTemplateTypeConstant.ScanConsts | PHPStan/Rules/Entities/DefineTemplateTypeConstantRule.php:47-56 | the inner loop carries both flags across one constant statement |
| DefineTemplateTypeConstant.ProcessNode | PHPStan/Rules/Entities/DefineTemplateTypeConstantRule.php:29-76 | no error outside entity files or for anonymous classes; otherwise the outcome of the public constants |
| DefineTemplateTypeConstant.NonPublicIgnored | PHPStan/Rules/Entities/DefineTemplateTypeConstantRule.php:43-45 | a non-public constant statement is ignored wherever it stands |
| DefineTemplateTypeConstant.NonLiteralInvalid | PHPStan/Rules/Entities/DefineTemplateTypeConstantRule.php:52-55 | a `TEMPLATE_TYPE` with a non-literal value is found but invalid |
| RequireOrderProperty.ProcessNode | PHPStan/Rules/Hooks/RequireOrderPropertyRule.php:30-73 | one error exactly for a named hook class in which no property statement declares `public static int $order` |
| RequireOrderProperty.NearMisses | PHPStan/Rules/Hooks/RequireOrderPropertyRule.php:46-59 | only the first name of a grouped declaration counts; `?int`, a class-name type or no type does not satisfy the rule |
| RequireOrderProperty.Visibility | PHPStan/Rules/Hooks/RequireOrderPropertyRule.php:53 | `var`-style (no visibility) counts as public; private or non-static does not count |
| DefineEntityTypeConstant.Errors | PHPStan/Rules/Entities/DefineEntityTypeConstantRule.php:34-68 | one error exactly for a named entity class in which no public constant statement typed `string` declares `ENTITY_TYPE` |
| DefineEntityTypeConstant.ValueIgnored | PHPStan/Rules/Entities/DefineEntityTypeConstantRule.php:56-60 | the constants' values never change the outcome |
| DefineEntityTypeConstant.NearMisses | PHPStan/Rules/Entities/DefineEntityTypeConstantRule.php:47-54 | an untyped, private, protected or `?string` `ENTITY_TYPE` does not satisfy the rule |
| ServiceMustExtendRecord.ExtendsName | PHPStan/Rules/Services/ServiceMustExtendRecordRule.php:39-40 | the `extends` name, or the empty string when there is none |
| ServiceMustExtendRecord.Errors | PHPStan/Rules/Services/ServiceMustExtendRecordRule.php:29-52 | one error exactly for a named service class whose direct parent is not `Espo\Services\Record` |
| ServiceMustExtendRecord.OnlyDirectParent | PHPStan/Rules/Services/ServiceMustExtendRecordRule.php:39-41 | only the name and the direct parent matter; no `extends` always errs |

## Left out

- File and parser I/O in `collectHookRequiredFields` (`is_dir`, `glob`, `file_get_contents`, parser selection and parse errors) are not modelled. Instead, an input map goes from hook directory to the parsed method lists of its files. A missing directory is an absent key; an unreadable or unparsable file is an empty list.
- PHPStan's type inference (`Scope::getType` on the method node's scope, then `getObjectClassNames`) is an input map from variable name to class names.
- The `preg_match` pattern `\Entities\([A-Za-z0-9_]+)$` is a string function proved equal to a declarative definition of the match. PCRE's `$` also matches before a final newline; class names hold no newline, so the model anchors at the very end.
- The syntax tree keeps only expressions inside statements. A closure or an anonymous class inside a method body appears as an `OtherExpr` holding its expressions. So `DependencyVisibilityOrFinal.FirstConstructor` looks only at the class's own methods. In PHP, `findFirst` over `getMethods()` would also reach a `__construct` of an anonymous class nested in an earlier method's body.
- Errors are their message strings. `RuleErrorBuilder`, the attached identifier and PHPStan's rule registration and dispatch are not modelled. `IdentifierBuilder` derives the identifier on its own.
- `OnlyOverrideParentMethodsRule` is a thin wrapper over PHPStan's class reflection, which searches the class hierarchy, and is not part of this model.
- `NoSameEntitySave.OptionKey` takes a class-constant key as it is written. The name of the constant is not resolved to its value.
- `SaveRestrictedEntityFields.SaveMessage` keeps PHP's `($entityType ?? 'entity')` only for the value it always takes, because an entity type is known whenever a message is built.
