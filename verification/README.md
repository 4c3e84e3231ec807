# Query by example in census-model, in Dafny

census-model stores insurance rates (`Rate`: an age band, a product id and a
price) behind data access objects. Its one piece of original logic is
query by example, in `BaseDao`. Given a partially filled entity, the builder:

- walks the entity's read/write bean properties;
- skips `version` and `uniqueIdentifier`;
- turns every other property whose getter returns non-null into an equality
  predicate `<field> = ?`;
- joins the predicates as `from <Class> where f1 = ? and f2 = ? ...`;
- binds the values to the placeholders by position, from 1;
- runs the query.

`DatabaseRateDao` uses it to look up rates by product id. `FakeRateDao`
returns two fixed rate bands instead.

This project models that core as pure Dafny functions and methods. Each
module follows one part of the program:

- `Wrappers`: `Option` (a Java reference that may be null) and `Result` (a
  computation that may throw).
- `Values`: the boxed values a getter returns. `Integer` and `Long` are
  explicit 32-bit and 64-bit ranges. `BigDecimal` is an unscaled value and a
  scale.
- `Model`: `BaseModel` and `Rate` as immutable records. Their constructors,
  getters and setters are functions, and lemmas state the accessor laws.
- `Reflection`: `ReflectionUtility`. Java reflection becomes explicit class
  metadata: the `@Entity` flag, the canonical name, and the property
  descriptors in introspection order. The model covers `getFieldName`,
  both `getPropertyDescriptors` overloads, `findPropertyWithName` and
  `isAnnotationPresent`.
- `QueryBuilder`: `buildTypedExampleQueryString` and `getByExample`.
  - Both are written as methods that follow the Java statements.
  - A reference definition, `ExampleQuery`, is stated over the processed
    prefix of descriptors.
  - The binding loop is modelled as a sequence of `setParameter(position,
    value)` calls.
- `QueryProperties`: what the builder guarantees.
  - Which properties become criteria, and in what order.
  - When the query fails.
  - That reserved and null properties contribute nothing.
  - That one ` where ` joiner is followed by ` and ` joiners.
  - That the placeholders match the parameters.
- `QueryText`: a parser for the where clause, and the proof that it reads
  back the fields the builder wrote, each paired with its parameter.
- `RateDao`: the Rate lookups.
  - Rate's six bean properties are stated explicitly.
  - The introspector may report them in any order.
  - The lemmas give the exact query texts `findRatesByProductId` produces.
- `Seqs`: order-preserving selection and character counting.

Behaviour worth knowing, as the code has it:

- `getFieldName` upper-cases the first character of a boolean property's
  name with `charAt(0)`. A boolean property with an empty name therefore
  throws. The builder calls `getFieldName` before it reads the value, so the
  exception is raised even when the value is null. The model makes this the
  `StringIndexOutOfBounds` failure of the whole query.
- `getPropertyDescriptors(type, true)` reassigns the array it is iterating
  over inside its for-each loop.
  - Java evaluates the loop's array once, so iteration is unaffected.
  - The result is the read/write descriptors in order.
  - For an empty input it is the original empty array.
- In the builder, `isWhere` and `needAnd` are always equal, so the
  `else if (needAnd)` arm never runs on its own.
- A class without `@Entity` gives the empty query text and no parameters.
  `getByExample` still hands that text to the query engine and passes on
  the engine's answer: a result list, or the exception the engine throws.
  The engine, a parameter `run`, is called with `""` and no bindings.
- The three-argument `Rate` constructor does not check its age band.

## Model

| member | source | states |
|---|---|---|
| Model.NewBaseModel | src/main/java/com/celerity/censusmodel/model/BaseModel.java:10-12 | a new BaseModel has a null id |
| Model.NewBaseModelWithId | src/main/java/com/celerity/censusmodel/model/BaseModel.java:14-17 | the id constructor stores the given id, null included |
| Model.SetId | src/main/java/com/celerity/censusmodel/model/BaseModel.java:27-29 | after `setId(x)`, `getId()` returns x |
| Model.BaseModelAccessorLaws | src/main/java/com/celerity/censusmodel/model/BaseModel.java:23-29 | get-after-set returns the value set; setting the current id changes nothing; the later of two `setId` calls wins |
| Model.NewRate | src/main/java/com/celerity/censusmodel/model/Rate.java:34-36 | `new Rate()` has every field null, the inherited id included |
| Model.NewRateWith | src/main/java/com/celerity/censusmodel/model/Rate.java:27-32 | the three-argument constructor boxes both ages as non-null, stores the rate as given, and leaves product id and id null |
| Model.SetRateId | src/main/java/com/celerity/censusmodel/model/BaseModel.java:27-29 | the inherited `setId` on a Rate changes the id and no other getter's result |
| Model.SetMinAge | src/main/java/com/celerity/censusmodel/model/Rate.java:62-64 | `setMinAge` changes `getMinAge` and no other getter's result |
| Model.SetMaxAge | src/main/java/com/celerity/censusmodel/model/Rate.java:66-68 | `setMaxAge` changes `getMaxAge` and no other getter's result |
| Model.SetProductId | src/main/java/com/celerity/censusmodel/model/Rate.java:58-60 | `setProductId` changes `getProductId` and no other getter's result |
| Model.SetRate | src/main/java/com/celerity/censusmodel/model/Rate.java:50-52 | `setRate` changes `getRate` and no other getter's result |
| Model.RateExtensionality | src/main/java/com/celerity/censusmodel/model/Rate.java:13-56 | two Rates on which all five getters agree are equal: the getters observe the whole state |
| Model.RateSetterLaws | src/main/java/com/celerity/censusmodel/model/Rate.java:50-68 | for each of the five setters (`setId` included), setting the current value is the identity, and of two writes to the field the last wins |
| Model.ConstructorIsSetters | src/main/java/com/celerity/censusmodel/model/Rate.java:27-36 | `new Rate(min, max, rate)` equals `new Rate()` followed by `setMinAge`, `setMaxAge` and `setRate` |
| Model.ConstructorAcceptsInvertedBand | src/main/java/com/celerity/censusmodel/model/Rate.java:27-32 | the constructor accepts a minimum age above the maximum age |
| Values.DecimalOf | src/main/java/com/celerity/censusmodel/dao/FakeRateDao.java:14-15 | `BigDecimal.valueOf(n)` is n with scale 0 |
| Reflection.Read | src/main/java/com/celerity/censusmodel/dao/BaseDao.java:49-54 | invoking a property's getter yields a value exactly when the example holds a non-null value for it |
| Reflection.ToUpperAscii | src/main/java/com/celerity/censusmodel/util/ReflectionUtility.java:162 | a lower-case ASCII letter becomes its upper-case letter; any other character is unchanged |
| Reflection.FieldName | src/main/java/com/celerity/censusmodel/util/ReflectionUtility.java:155-165 | a non-boolean property keeps its name. For a boolean property the field name exists exactly when the name is non-empty, and it is `is` + the upper-cased first character + the rest of the name; a lower-case letter becomes upper-case, any other first character stays as it is |
| Reflection.FieldNameRoundTrip | src/main/java/com/celerity/censusmodel/util/ReflectionUtility.java:147-165 | for a boolean property whose name starts with a lower-case letter, stripping `is` and lower-casing the next character gives the property name back |
| Reflection.BooleanFieldNameExample | src/main/java/com/celerity/censusmodel/util/ReflectionUtility.java:148-149 | boolean `deleted` becomes `isDeleted`, boolean `URL` becomes `isURL`, non-boolean `deleted` stays `deleted`, boolean `""` fails |
| Reflection.GetPropertyDescriptors | src/main/java/com/celerity/censusmodel/util/ReflectionUtility.java:261-273 | with `readWriteOnly` the result is exactly the descriptors having both a getter and a setter, in introspection order (the in-loop reassignment included); without it, every descriptor |
| Reflection.GetReadWritePropertyDescriptors | src/main/java/com/celerity/censusmodel/util/ReflectionUtility.java:248-250 | the one-argument overload returns the read/write descriptors, each taken from the class |
| Reflection.FindPropertyWithName | src/main/java/com/celerity/censusmodel/util/ReflectionUtility.java:117-127 | the result is null exactly when no read/write property has the name; otherwise it is the first read/write descriptor with that name |
| Reflection.IsAnnotationPresent | src/main/java/com/celerity/censusmodel/util/ReflectionUtility.java:167-182 | true exactly when some annotation of the property has one of the listed annotation types |
| Seqs.Filter | src/main/java/com/celerity/censusmodel/util/ReflectionUtility.java:264-270 | the selection is no longer than the input; each selected element is in the input and satisfies the test; each input element that satisfies the test is selected |
| Seqs.FilterSubsequence | src/main/java/com/celerity/censusmodel/util/ReflectionUtility.java:264-270 | selection keeps input order: it is the input at strictly increasing positions, covering every position whose element satisfies the test |
| QueryBuilder.WhereClauseSnoc | src/main/java/com/celerity/censusmodel/dao/BaseDao.java:56-63 | one more criterion appends ` where ` (for the first) or ` and ` (otherwise) and then `<field> = ?` to the clause |
| QueryBuilder.DiscoverFailurePersists | src/main/java/com/celerity/censusmodel/dao/BaseDao.java:46-51 | once `getFieldName` has thrown for a descriptor, the whole query fails |
| QueryBuilder.BuildTypedExampleQueryString | src/main/java/com/celerity/censusmodel/dao/BaseDao.java:38-71 | the statement-by-statement builder computes exactly the reference query `ExampleQuery`; the loop invariant `isWhere == needAnd` is proved |
| QueryBuilder.BindingsArePositional | src/main/java/com/celerity/censusmodel/dao/BaseDao.java:30-33 | after the bindings, placeholder `pos` sees parameter `pos - 1` for every `pos` from 1 to n, and nothing outside that range |
| QueryBuilder.BindParameters | src/main/java/com/celerity/censusmodel/dao/BaseDao.java:30-33 | the loop binds parameter k at position k + 1, so each placeholder sees the parameter in its position |
| QueryBuilder.GetByExample | src/main/java/com/celerity/censusmodel/dao/BaseDao.java:25-36 | a failure to build the query is raised as a build failure; otherwise the engine receives the built text with parameters bound from position 1, and its result list, or its exception, is passed on |
| QueryProperties.DiscoverCriteriaSelects | src/main/java/com/celerity/censusmodel/dao/BaseDao.java:46-68 | discovery succeeds exactly when every non-reserved property has a field name; the criteria then correspond one-to-one, in order, to the non-reserved properties with non-null values, each named by its field name and holding its value |
| QueryProperties.ExampleQueryCharacterization | src/main/java/com/celerity/censusmodel/dao/BaseDao.java:38-71 | an entity's query is `from <name>` + the where clause; criterion and parameter k come from the same non-reserved, non-null read/write property; descriptor order is kept; and no qualifying property is missed |
| QueryProperties.ExampleQueryFails | src/main/java/com/celerity/censusmodel/dao/BaseDao.java:48-51 | building fails exactly for an entity with a non-reserved read/write boolean property whose name is empty |
| QueryProperties.NonEntityQueryIsEmpty | src/main/java/com/celerity/censusmodel/dao/BaseDao.java:39-40 | a class without `@Entity` yields the empty text and no parameters, whatever the example holds |
| QueryProperties.NoCriteriaQuery | src/main/java/com/celerity/censusmodel/dao/BaseDao.java:41-69 | with no qualifying property the query is `from <name>` with no where clause and no parameters |
| QueryProperties.SingleCriterionQuery | src/main/java/com/celerity/censusmodel/dao/BaseDao.java:54-65 | with exactly one qualifying property the query is `from <name> where <field> = ?` with that property's value as the only parameter, and no ` and ` |
| QueryProperties.DiscoverIgnoresReserved | src/main/java/com/celerity/censusmodel/dao/BaseDao.java:48 | two examples whose non-reserved properties read the same produce the same criteria |
| QueryProperties.ReservedPropertiesIgnored | src/main/java/com/celerity/censusmodel/dao/BaseDao.java:48 | changing `version` or `uniqueIdentifier`, to null or to any value, leaves the query unchanged |
| QueryProperties.NullPropertyAddsNothing | src/main/java/com/celerity/censusmodel/dao/BaseDao.java:52-54 | a property whose getter returns null can be removed from the class without changing the query |
| QueryProperties.WhereClauseJoiners | src/main/java/com/celerity/censusmodel/dao/BaseDao.java:56-63 | the where clause is the concatenation of one piece per criterion, `<joiner><field> = ?`: ` where ` for the first and ` and ` for each of the other n - 1 |
| QueryProperties.PlaceholdersMatchParameters | src/main/java/com/celerity/censusmodel/dao/BaseDao.java:54-63 | when no class or property name contains `?`, the text holds exactly one `?` per parameter |
| QueryText.WhereClauseRoundTrip | src/main/java/com/celerity/censusmodel/dao/BaseDao.java:56-63 | parsing a where clause built from space-free field names gives back exactly those fields, in order |
| QueryText.FieldNameIsToken | src/main/java/com/celerity/censusmodel/util/ReflectionUtility.java:155-165 | the field name of a non-empty, space-free property name is non-empty and space-free |
| QueryText.QueryReadBack | src/main/java/com/celerity/censusmodel/dao/BaseDao.java:38-71 | the text starts with `from <name>`; its where clause parses into one field per parameter; field k and parameter k belong to the same property |
| RateDao.RateExample | src/main/java/com/celerity/censusmodel/model/Rate.java:38-56 | reflection reads each of Rate's properties through its getter, and `class` reads the Rate class |
| RateDao.ProductIdExample | src/main/java/com/celerity/censusmodel/dao/DatabaseRateDao.java:11-12 | the example is a new Rate whose only possibly non-null field is the product id |
| RateDao.RatePropertiesRenderable | src/main/java/com/celerity/censusmodel/model/Rate.java:13-24 | no property of Rate is boolean, so building a Rate query never fails |
| RateDao.RatePropertyQualifies | src/main/java/com/celerity/censusmodel/dao/BaseDao.java:45-54 | a Rate property is a criterion exactly when it is not `class` (read-only) and its getter returns non-null |
| RateDao.SinglePropertyRateQuery | src/main/java/com/celerity/censusmodel/dao/BaseDao.java:38-71 | a Rate with one non-null property is queried by that property alone, whatever order the introspector reports |
| RateDao.ProductIdQuery | src/main/java/com/celerity/censusmodel/dao/DatabaseRateDao.java:10-15 | for a non-null product id p the query is `from com.celerity.censusmodel.model.Rate where productId = ?` with parameter p |
| RateDao.IdQuery | src/main/java/com/celerity/censusmodel/model/BaseModel.java:19-29 | a Rate with only the inherited id set is queried by `id`, which is neither reserved nor read-only |
| RateDao.NullProductIdQuery | src/main/java/com/celerity/censusmodel/dao/DatabaseRateDao.java:10-15 | for a null product id the query is `from com.celerity.censusmodel.model.Rate` with no parameters: every rate |
| RateDao.FindRatesByProductId | src/main/java/com/celerity/censusmodel/dao/DatabaseRateDao.java:10-15 | the lookup passes on the engine's answer, a result list or an exception, for the product-id query with the id bound at position 1; for a null id, for the unfiltered query |
| RateDao.FakeFindRatesByProductId | src/main/java/com/celerity/censusmodel/dao/FakeRateDao.java:12-17 | the fake returns two rates: ages 0-50 at 3333 and ages 0-99 at 4444, with product id and id null |
| RateDao.FakeRatesIgnoreProductId | src/main/java/com/celerity/censusmodel/dao/FakeRateDao.java:12-17 | the fake's result does not depend on the product id, and each band's minimum age is at most its maximum |

## Left out

- `findById`: a single `EntityManager.find` call, which is persistence I/O.
- `DefaultRateDao`: persistence I/O plus fixed data. `findRates` ignores its argument, loads the Rate with id 3, and appends `new Rate(0, 99, BigDecimal.valueOf(55))`. It is not part of this model.
- The query engine (`createQuery`, `setParameter`, `getResultList`): this is the parameter `run` of `GetByExample` and `FindRatesByProductId`. It answers with a result list or an exception message. Binding is modelled as the sequence of `setParameter` calls. The model does not say which texts or bindings make the engine throw.
- `safelyInvoke` and the other `safely*` helpers: a getter is the total function `Read`. A getter that throws is not modelled.
- `setValue`, `copyBeans`: neither is used by query by example.
- `getBeanInfo`: its output, the introspector's descriptors, is the input `ClassInfo.descriptors`. Its `IntrospectionException`, rethrown as a `RuntimeException`, is not modelled.
- `getPropertyAnnotations`, `getMethodAnnotations`, `getFieldAnnotations`: Java annotation lookup. Their result is the input list of `IsAnnotationPresent`.
- Introspector order: the descriptor order is an input. The Rate lemmas hold for every order of Rate's six properties.
- Reflection.ToUpperAscii: upper-cases only ASCII letters, as under an English locale. Java's `toUpperCase()` without a `Locale` uses the default locale. It also maps other scripts, and for a few characters yields two. Under a Turkish or Azeri locale, `i` becomes `İ`, so boolean `indexed` renders as `isİndexed`, whereas the model gives `isIndexed`.
- Reflection.FindPropertyWithName: a null `name` is not modelled. Java would throw on `name.equals` once a descriptor exists.
- Reflection.FieldName: a descriptor without a read method is not modelled. Every descriptor the builder sees is read/write.
- `BigDecimal` arithmetic and `equals`: a decimal is only carried as a value.
- Logging: none.
